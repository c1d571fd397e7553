// Styles that name, replace and refer to each other: the data validator (scripts/validate_data.py) and the resolver
// that follows the same links (scripts/design_system.py).

module StyleGraph {
  import opened Options
  import opened Text

  // ---------------------------------------------------------------- Python strings

  predicate IsBlankChar(c: char) {
    || '\t' <= c <= '\r' || '\U{001C}' <= c <= ' ' || c == '\U{0085}' || c == '\U{00A0}' || c == '\U{1680}'
    || '\U{2000}' <= c <= '\U{200A}' || c == '\U{2028}' || c == '\U{2029}' || c == '\U{202F}' || c == '\U{205F}'
    || c == '\U{3000}'
  }

  function Strip(s: string): (t: string)
    ensures t != "" ==> !IsBlankChar(t[0]) && !IsBlankChar(t[|t| - 1])
  {
    if s != "" && IsBlankChar(s[0]) then Strip(s[1..])
    else if s != "" && IsBlankChar(s[|s| - 1]) then Strip(s[..|s| - 1])
    else s
  }

  // The stripped pieces that are not empty.
  function Stripped(parts: seq<string>): (names: seq<string>)
    ensures forall name <- names :: name != "" && Strip(name) == name
  {
    if parts == [] then []
    else (if Strip(parts[0]) != "" then [Strip(parts[0])] else []) + Stripped(parts[1..])
  }

  function SplitNames(value: string, delimiter: char): seq<string> {
    Stripped(SplitOn(value, delimiter))
  }

  // What str.casefold is relied on for: it empties nothing and leaves blanks at the ends where they are.
  ghost predicate IsCasefold(fold: string -> string) {
    && (forall s :: s != "" ==> fold(s) != fold(""))
    && (forall a, b :: Strip(a) == a && fold(a) == fold(b) ==> Strip(b) == b)
  }

  // There is such a function.
  lemma IdentityIsCasefold()
    ensures IsCasefold(s => s)
  {}

  // ---------------------------------------------------------------- rows

  datatype Style = Style(id: string, category: string, aliases: string, status: string, parent: string,
                         replacementDomain: string, replacementId: string)

  datatype Product = Product(primary: string, secondary: string)

  function SetAll<V>(table: map<string, V>, keys: seq<string>, value: V, fold: string -> string): map<string, V> {
    if keys == [] then table
    else SetAll(table, keys[..|keys| - 1], value, fold)[fold(keys[|keys| - 1]) := value]
  }

  lemma {:induction false} SetAllFinds<V>(table: map<string, V>, keys: seq<string>, value: V,
                                          fold: string -> string, x: string)
    ensures (exists key <- keys :: fold(key) == x) ==> Get(SetAll(table, keys, value, fold), x) == Some(value)
    ensures !(exists key <- keys :: fold(key) == x) ==> Get(SetAll(table, keys, value, fold), x) == Get(table, x)
  {
    if keys != [] {
      var n := |keys| - 1;
      assert keys[n] in keys && forall key <- keys[..n] :: key in keys;
      SetAllFinds(table, keys[..n], value, fold, x);
      assert keys == keys[..n] + [keys[n]];
    }
  }

  function Get<V>(table: map<string, V>, key: string): Option<V> {
    if key in table then Some(table[key]) else None
  }

  // ---------------------------------------------------------------- the resolver

  // The names a style answers to.
  function NamesOf(s: Style): seq<string> {
    Stripped([s.id, s.category]) + SplitNames(s.aliases, '|')
  }

  function StyleLookup(styles: seq<Style>, fold: string -> string): map<string, Style> {
    if styles == [] then map[]
    else
      var n := |styles| - 1;
      SetAll(StyleLookup(styles[..n], fold), NamesOf(styles[n]), styles[n], fold)
  }

  lemma {:induction false} StrippedAppend(a: seq<string>, b: seq<string>)
    ensures Stripped(a + b) == Stripped(a) + Stripped(b)
  {
    if a == [] {
      assert a + b == b;
    } else {
      assert (a + b)[1..] == a[1..] + b;
      StrippedAppend(a[1..], b);
    }
  }

  lemma StrippedSnoc(parts: seq<string>, part: string)
    ensures Stripped(parts + [part]) == Stripped(parts) + if Strip(part) != "" then [Strip(part)] else []
  {
    hide Strip;
    StrippedAppend(parts, [part]);
    assert [part][1..] == [] && Stripped([]) == [];
    assert Stripped([part]) == (if Strip(part) != "" then [Strip(part)] else []) + Stripped([part][1..]);
  }

  lemma SetAllSnoc<V>(table: map<string, V>, keys: seq<string>, key: string, value: V, fold: string -> string)
    ensures SetAll(table, keys + [key], value, fold) == SetAll(table, keys, value, fold)[fold(key) := value]
  {
    assert (keys + [key])[..|keys|] == keys;
  }

  method AddNames(lookup: map<string, Style>, style: Style, fold: string -> string) returns (added: map<string, Style>)
    ensures added == SetAll(lookup, NamesOf(style), style, fold)
  {
    hide Strip, Stripped, SetAll;
    var keys := [style.id, style.category] + SplitOn(style.aliases, '|');
    StrippedAppend([style.id, style.category], SplitOn(style.aliases, '|'));
    added := lookup;
    NoneSet(lookup, style, fold);
    for k := 0 to |keys|
      invariant added == SetAll(lookup, Stripped(keys[..k]), style, fold)
    {
      assert keys[..k + 1] == keys[..k] + [keys[k]];
      StrippedSnoc(keys[..k], keys[k]);
      if Strip(keys[k]) != "" {
        SetAllSnoc(lookup, Stripped(keys[..k]), Strip(keys[k]), style, fold);
        added := added[fold(Strip(keys[k])) := style];
      } else {
        assert Stripped(keys[..k]) + [] == Stripped(keys[..k]);
      }
    }
    assert keys[..|keys|] == keys;
  }

  lemma NoneSet(lookup: map<string, Style>, style: Style, fold: string -> string)
    ensures SetAll(lookup, Stripped([]), style, fold) == lookup
  {}

  method BuildStyleLookup(styles: seq<Style>, fold: string -> string) returns (lookup: map<string, Style>)
    ensures lookup == StyleLookup(styles, fold)
  {
    hide SetAll, NamesOf;
    lookup := map[];
    for i := 0 to |styles|
      invariant lookup == StyleLookup(styles[..i], fold)
    {
      assert styles[..i + 1][..i] == styles[..i];
      lookup := AddNames(lookup, styles[i], fold);
    }
    assert styles[..|styles|] == styles;
  }

  function IdsIn(lookup: map<string, Style>): set<string> {
    set key | key in lookup :: lookup[key].id
  }

  // Following parents from a style; an id already seen ends it.
  function Follow(lookup: map<string, Style>, style: Option<Style>, seen: set<string>,
                  fold: string -> string): Option<Style>
    requires style.Some? ==> style.value in lookup.Values
    decreases |IdsIn(lookup) - seen|
  {
    if style.None? || style.value.status != "deprecated" then style
    else if style.value.parent == "" || style.value.id in seen then None
    else
      assert style.value.id in IdsIn(lookup) - seen;
      assert IdsIn(lookup) - (seen + {style.value.id}) < IdsIn(lookup) - seen;
      SmallerSet(IdsIn(lookup) - (seen + {style.value.id}), IdsIn(lookup) - seen);
      Follow(lookup, Get(lookup, fold(style.value.parent)), seen + {style.value.id}, fold)
  }

  lemma SmallerSet<T>(a: set<T>, b: set<T>)
    requires a < b
    ensures |a| < |b|
  {
    assert b == a + (b - a) && b - a != {};
  }

  function Resolved(lookup: map<string, Style>, reference: string, fold: string -> string): Option<Style> {
    Follow(lookup, Get(lookup, fold(Strip(reference))), {}, fold)
  }

  // It ends on any data, cyclic or not.
  method ResolveStyle(lookup: map<string, Style>, reference: string,
                      fold: string -> string) returns (found: Option<Style>)
    ensures found == Resolved(lookup, reference, fold)
  {
    var style := Get(lookup, fold(Strip(reference)));
    var seen: set<string> := {};
    while style.Some? && style.value.status == "deprecated"
      invariant style.Some? ==> style.value in lookup.Values
      invariant Follow(lookup, style, seen, fold) == Resolved(lookup, reference, fold)
      decreases |IdsIn(lookup) - seen|
    {
      if style.value.parent == "" || style.value.id in seen { return None; }
      SmallerSet(IdsIn(lookup) - (seen + {style.value.id}), IdsIn(lookup) - seen);
      seen := seen + {style.value.id};
      style := Get(lookup, fold(style.value.parent));
    }
    return style;
  }

  // ---------------------------------------------------------------- the validator

  datatype Problem =
    | InvalidId(id: string)
    | DuplicateId(id: string)
    | InvalidStatus(id: string)
    | SupplementalWithoutParent(id: string)
    | NeedsOneReplacement(id: string)
    | InvalidRedirect(id: string)
    | RedirectWhileLive(id: string)
    | Ambiguous(key: string, owner: string, id: string)
    | InvalidParent(id: string)
    | ParentCycle(id: string)
    | ParentNotActive(id: string)
    | Unresolved(reference: string)
    | TargetsDeprecated(reference: string)

  // [a-z0-9]+(?:-[a-z0-9]+)*
  predicate IsStyleId(id: string) {
    forall part <- SplitOn(id, '-') :: part != "" && forall c <- part :: 'a' <= c <= 'z' || '0' <= c <= '9'
  }

  // What the validator takes as a style's identities.
  function Identities(s: Style): seq<string> {
    [s.id, s.category] + SplitNames(s.aliases, '|')
  }

  function When(condition: bool, p: Problem): seq<Problem> {
    if condition then [p] else []
  }

  function FieldProblems(s: Style, earlier: set<string>, targets: map<string, set<string>>): seq<Problem> {
    var redirects := s.replacementDomain != "" && s.replacementId != "";
    When(!IsStyleId(s.id), InvalidId(s.id))
    + When(s.id in earlier, DuplicateId(s.id))
    + When(s.status !in {"active", "supplemental", "deprecated"}, InvalidStatus(s.id))
    + When(s.status == "supplemental" && s.parent == "", SupplementalWithoutParent(s.id))
    + if s.status == "deprecated" then
        When((s.parent != "") == redirects, NeedsOneReplacement(s.id))
        + When(redirects && (s.replacementDomain !in targets || s.replacementId !in targets[s.replacementDomain]),
               InvalidRedirect(s.id))
      else When(s.replacementDomain != "" || s.replacementId != "", RedirectWhileLive(s.id))
  }

  function KeyProblems(owners: map<string, string>, keys: seq<string>, id: string,
                       fold: string -> string): seq<Problem> {
    if keys == [] then []
    else
      var n := |keys| - 1;
      var owner := Get(SetAll(owners, keys[..n], id, fold), fold(keys[n]));
      KeyProblems(owners, keys[..n], id, fold)
      + When(owner.Some? && owner.value != id, Ambiguous(keys[n], if owner.Some? then owner.value else "", id))
  }

  // Who owns each folded identity.
  function OwnersOf(styles: seq<Style>, fold: string -> string): map<string, string> {
    if styles == [] then map[]
    else
      var n := |styles| - 1;
      SetAll(OwnersOf(styles[..n], fold), Identities(styles[n]), styles[n].id, fold)
  }

  function IdsOf(styles: seq<Style>): set<string> {
    set s | s in styles :: s.id
  }

  // The last row of each id.
  function RowsById(styles: seq<Style>): map<string, Style> {
    if styles == [] then map[] else RowsById(styles[..|styles| - 1])[styles[|styles| - 1].id := styles[|styles| - 1]]
  }

  function ParentsOf(styles: seq<Style>): map<string, string> {
    map id | id in RowsById(styles) :: RowsById(styles)[id].parent
  }

  function RowProblems(styles: seq<Style>, targets: map<string, set<string>>, fold: string -> string): seq<Problem> {
    if styles == [] then []
    else
      var n := |styles| - 1;
      RowProblems(styles[..n], targets, fold)
      + FieldProblems(styles[n], IdsOf(styles[..n]), targets)
      + KeyProblems(OwnersOf(styles[..n], fold), Identities(styles[n]), styles[n].id, fold)
  }

  method CheckKeys(known: map<string, string>, keys: seq<string>, id: string, fold: string -> string)
    returns (problems: seq<Problem>, owners: map<string, string>)
    ensures problems == KeyProblems(known, keys, id, fold) && owners == SetAll(known, keys, id, fold)
  {
    problems, owners := [], known;
    for k := 0 to |keys|
      invariant owners == SetAll(known, keys[..k], id, fold) && problems == KeyProblems(known, keys[..k], id, fold)
    {
      assert keys[..k + 1][..k] == keys[..k];
      var folded := fold(keys[k]);
      if folded in owners && owners[folded] != id {
        problems := problems + [Ambiguous(keys[k], owners[folded], id)];
      }
      owners := owners[folded := id];
    }
    assert keys[..|keys|] == keys;
  }

  lemma NoRows(targets: map<string, set<string>>, fold: string -> string)
    ensures RowProblems([], targets, fold) == [] && OwnersOf([], fold) == map[] && RowsById([]) == map[]
    ensures IdsOf([]) == {}
  {}

  lemma RowStep(styles: seq<Style>, i: nat, targets: map<string, set<string>>, fold: string -> string)
    requires i < |styles|
    ensures RowProblems(styles[..i + 1], targets, fold)
         == RowProblems(styles[..i], targets, fold) + FieldProblems(styles[i], IdsOf(styles[..i]), targets)
            + KeyProblems(OwnersOf(styles[..i], fold), Identities(styles[i]), styles[i].id, fold)
    ensures OwnersOf(styles[..i + 1], fold)
            == SetAll(OwnersOf(styles[..i], fold), Identities(styles[i]), styles[i].id, fold)
    ensures RowsById(styles[..i + 1]) == RowsById(styles[..i])[styles[i].id := styles[i]]
    ensures IdsOf(styles[..i + 1]) == IdsOf(styles[..i]) + {styles[i].id}
  {
    hide FieldProblems, Identities, KeyProblems, SetAll;
    assert styles[..i + 1][..i] == styles[..i];
    assert styles[..i + 1] == styles[..i] + [styles[i]];
  }

  method CheckRows(styles: seq<Style>, targets: map<string, set<string>>, fold: string -> string)
    returns (problems: seq<Problem>, owners: map<string, string>, byId: map<string, Style>)
    ensures problems == RowProblems(styles, targets, fold)
    ensures owners == OwnersOf(styles, fold) && byId == RowsById(styles)
  {
    hide FieldProblems, Identities, KeyProblems, SetAll, RowProblems, OwnersOf, RowsById, IdsOf;
    problems, owners, byId := [], map[], map[];
    NoRows(targets, fold);
    var ids: set<string> := {};
    for i := 0 to |styles|
      invariant problems == RowProblems(styles[..i], targets, fold)
      invariant owners == OwnersOf(styles[..i], fold) && byId == RowsById(styles[..i]) && ids == IdsOf(styles[..i])
    {
      var row := styles[i];
      RowStep(styles, i, targets, fold);
      problems := problems + FieldProblems(row, ids, targets);
      ids := ids + {row.id};
      byId := byId[row.id := row];
      var ambiguous;
      ambiguous, owners := CheckKeys(owners, Identities(row), row.id, fold);
      problems := problems + ambiguous;
    }
    assert styles[..|styles|] == styles;
  }

  // ---------------------------------------------------------------- chains

  function Iterate<T>(f: T -> T, x: T, n: nat): T {
    if n == 0 then x else f(Iterate(f, x, n - 1))
  }

  lemma {:induction false} IterateAgain<T>(f: T -> T, x: T, i: nat, j: nat, d: nat)
    requires Iterate(f, x, i) == Iterate(f, x, j)
    ensures Iterate(f, x, i + d) == Iterate(f, x, j + d)
  {
    if d > 0 { IterateAgain(f, x, i, j, d - 1); }
  }

  // A chain that comes back to where it was never stops.
  lemma {:induction false} NeverStops<T>(f: T -> T, x: T, stop: T -> bool, i: nat, j: nat, n: nat)
    requires i < j && Iterate(f, x, i) == Iterate(f, x, j)
    requires forall m: nat :: m < j ==> !stop(Iterate(f, x, m))
    ensures !stop(Iterate(f, x, n))
    decreases n
  {
    if n >= j {
      IterateAgain(f, x, i, j, n - j);
      NeverStops(f, x, stop, i, j, n - j + i);
    }
  }

  // parents.get(current, "")
  function ParentStep(parents: map<string, string>): string -> string {
    current => if current in parents then parents[current] else ""
  }

  predicate IsEnd(current: string) {
    current == ""
  }

  ghost predicate NeverEnds(parents: map<string, string>, start: string) {
    forall n: nat :: !IsEnd(Iterate(ParentStep(parents), start, n))
  }

  ghost predicate Passed<T>(f: T -> T, x: T, n: nat, s: T) {
    exists m: nat :: m < n && Iterate(f, x, m) == s
  }

  lemma PassedNext<T>(f: T -> T, x: T, n: nat, s: T)
    requires Passed(f, x, n, s) || s == Iterate(f, x, n)
    ensures Passed(f, x, n + 1, s)
  {}

  // The walk so far: n steps, every value of which was seen.
  ghost predicate IsWalk(parents: map<string, string>, id: string, seen: set<string>, current: string, n: nat)
    requires id in parents
  {
    var f, start := ParentStep(parents), parents[id];
    && current == Iterate(f, start, n) && id in seen
    && (current == "" || current in parents.Values)
    && (forall m: nat :: m < n ==> !IsEnd(Iterate(f, start, m)))
    && (forall s <- seen :: s != id ==> Passed(f, start, n, s))
  }

  lemma WalkOn(parents: map<string, string>, id: string, seen: set<string>, current: string, n: nat)
    requires id in parents && IsWalk(parents, id, seen, current, n) && current != "" && current !in seen
    ensures IsWalk(parents, id, seen + {current}, ParentStep(parents)(current), n + 1)
  {
    var f, start := ParentStep(parents), parents[id];
    assert Iterate(f, start, n + 1) == f(current);
    forall s | s in seen + {current} && s != id ensures Passed(f, start, n + 1, s) { PassedNext(f, start, n, s); }
  }

  lemma WalkCycles(parents: map<string, string>, id: string, seen: set<string>, current: string, n: nat)
    requires id in parents && IsWalk(parents, id, seen, current, n) && current != "" && current in seen
    ensures NeverEnds(parents, parents[id])
  {
    var f, start := ParentStep(parents), parents[id];
    if current == id {
      assert Iterate(f, start, n + 1) == f(current) == start == Iterate(f, start, 0);
      forall k: nat ensures !IsEnd(Iterate(f, start, k)) { NeverStops(f, start, IsEnd, 0, n + 1, k); }
    } else {
      var m: nat :| m < n && Iterate(f, start, m) == current;
      forall k: nat ensures !IsEnd(Iterate(f, start, k)) { NeverStops(f, start, IsEnd, m, n, k); }
    }
  }

  // The cycle check reports exactly the styles whose parent chain never ends.
  method HasParentCycle(parents: map<string, string>, id: string) returns (cycle: bool)
    requires id in parents
    ensures cycle <==> NeverEnds(parents, parents[id])
  {
    hide IsWalk;
    var seen, current := {id}, parents[id];
    ghost var n: nat := 0;
    WalkStarts(parents, id);
    while current != ""
      invariant IsWalk(parents, id, seen, current, n)
      decreases |parents.Values - seen|
    {
      if current in seen {
        WalkCycles(parents, id, seen, current, n);
        return true;
      }
      WalkOn(parents, id, seen, current, n);
      WalkInside(parents, id, seen, current, n);
      SmallerSet(parents.Values - (seen + {current}), parents.Values - seen);
      seen := seen + {current};
      current := ParentStep(parents)(current);
      n := n + 1;
    }
    WalkInside(parents, id, seen, current, n);
    return false;
  }

  lemma WalkStarts(parents: map<string, string>, id: string)
    requires id in parents
    ensures IsWalk(parents, id, {id}, parents[id], 0)
  {}

  lemma WalkInside(parents: map<string, string>, id: string, seen: set<string>, current: string, n: nat)
    requires id in parents && IsWalk(parents, id, seen, current, n)
    ensures current == "" || current in parents.Values
    ensures current == "" ==> !NeverEnds(parents, parents[id])
  {
    if current == "" { assert IsEnd(Iterate(ParentStep(parents), parents[id], n)); }
  }

  // ---------------------------------------------------------------- parents and references

  ghost predicate IsParentProblem(p: Problem, byId: map<string, Style>, parents: map<string, string>) {
    match p
    case InvalidParent(id) => id in parents && parents[id] != "" && (parents[id] !in byId || parents[id] == id)
    case ParentCycle(id) => id in parents && NeverEnds(parents, parents[id])
    case ParentNotActive(id) =>
      id in parents && parents[id] != "" && !(parents[id] in byId && byId[parents[id]].status == "active")
    case _ => false
  }

  lemma FoundProblems(byId: map<string, Style>, parents: map<string, string>, id: string,
                      invalid: seq<Problem>, cyclic: seq<Problem>, inactive: seq<Problem>)
    requires id in parents
    requires var parent := parents[id];
      && invalid == When(parent != "" && (parent !in byId || parent == id), InvalidParent(id))
      && cyclic == When(NeverEnds(parents, parent), ParentCycle(id))
      && inactive == When(parent != "" && !(parent in byId && byId[parent].status == "active"), ParentNotActive(id))
    ensures forall p :: p in invalid + cyclic + inactive <==> IsParentProblem(p, byId, parents) && p.id == id
  {
    hide NeverEnds;
  }

  method CheckParents(byId: map<string, Style>, parents: map<string, string>) returns (problems: seq<Problem>)
    ensures forall p :: p in problems <==> IsParentProblem(p, byId, parents)
  {
    hide NeverEnds, When;
    problems := [];
    var left := parents.Keys;
    while left != {}
      invariant left <= parents.Keys
      invariant forall p <- problems :: IsParentProblem(p, byId, parents)
      invariant forall p :: IsParentProblem(p, byId, parents) && p.id !in left ==> p in problems
      decreases left
    {
      var id :| id in left;
      var parent := parents[id];
      var invalid := When(parent != "" && (parent !in byId || parent == id), InvalidParent(id));
      var cycle := HasParentCycle(parents, id);
      var cyclic := When(cycle, ParentCycle(id));
      var inactive := When(parent != "" && !(parent in byId && byId[parent].status == "active"), ParentNotActive(id));
      FoundProblems(byId, parents, id, invalid, cyclic, inactive);
      problems := problems + (invalid + cyclic + inactive);
      left := left - {id};
    }
  }

  function ReferencesOf(products: seq<Product>, priorities: seq<string>): seq<string> {
    if priorities != [] then
      ReferencesOf(products, priorities[..|priorities| - 1]) + SplitNames(priorities[|priorities| - 1], '+')
    else if products != [] then
      var n := |products| - 1;
      ReferencesOf(products[..n], []) + SplitNames(products[n].primary, '+') + SplitNames(products[n].secondary, ',')
    else []
  }

  // A name that some product or priority gives: a piece of it that is not blank, without the blanks at its ends.
  ghost predicate IsReference(name: string, products: seq<Product>, priorities: seq<string>) {
    || (exists p <- products :: IsNameIn(name, p.primary, '+'))
    || (exists p <- products :: IsNameIn(name, p.secondary, ','))
    || (exists v <- priorities :: IsNameIn(name, v, '+'))
  }

  ghost predicate IsNameIn(name: string, value: string, delimiter: char) {
    name != "" && exists part :: IsPiece(part, value, delimiter) && IsTrimOf(name, part)
  }

  // `t` is `s` without the blanks at its ends.
  ghost predicate IsTrimOf(t: string, s: string) {
    && (exists i, j :: IsBetweenBlanks(t, s, i, j))
    && (t != "" ==> !IsBlankChar(t[0]) && !IsBlankChar(t[|t| - 1]))
  }

  predicate IsBetweenBlanks(t: string, s: string, i: int, j: int) {
    && 0 <= i <= j <= |s| && t == s[i..j]
    && (forall k :: 0 <= k < i ==> IsBlankChar(s[k])) && (forall k :: j <= k < |s| ==> IsBlankChar(s[k]))
  }

  lemma BlankBefore(t: string, s: string, i: int, j: int)
    requires s != "" && IsBlankChar(s[0]) && IsBetweenBlanks(t, s[1..], i, j)
    ensures IsBetweenBlanks(t, s, i + 1, j + 1)
  {
    assert s[1..][i..j] == s[i + 1..j + 1];
    forall k | 0 <= k < i + 1 ensures IsBlankChar(s[k]) { assert k > 0 ==> s[k] == s[1..][k - 1]; }
    forall k | j + 1 <= k < |s| ensures IsBlankChar(s[k]) { assert s[k] == s[1..][k - 1]; }
  }

  lemma BlankAfter(t: string, s: string, i: int, j: int)
    requires s != "" && IsBlankChar(s[|s| - 1]) && IsBetweenBlanks(t, s[..|s| - 1], i, j)
    ensures IsBetweenBlanks(t, s, i, j)
  {
    forall k | 0 <= k < i ensures IsBlankChar(s[k]) { assert s[k] == s[..|s| - 1][k]; }
    forall k | j <= k < |s| ensures IsBlankChar(s[k]) { assert k < |s| - 1 ==> s[k] == s[..|s| - 1][k]; }
  }

  lemma {:induction false} StripTrims(s: string)
    ensures IsTrimOf(Strip(s), s)
    decreases |s|
  {
    hide IsBlankChar, IsBetweenBlanks;
    if s != "" && IsBlankChar(s[0]) {
      StripTrims(s[1..]);
      var i, j :| IsBetweenBlanks(Strip(s[1..]), s[1..], i, j);
      BlankBefore(Strip(s), s, i, j);
    } else if s != "" && IsBlankChar(s[|s| - 1]) {
      StripTrims(s[..|s| - 1]);
      var i, j :| IsBetweenBlanks(Strip(s[..|s| - 1]), s[..|s| - 1], i, j);
      BlankAfter(Strip(s), s, i, j);
    } else {
      WholeTrim(s);
    }
  }

  lemma WholeTrim(s: string)
    ensures IsBetweenBlanks(s, s, 0, |s|)
  {}

  // Nothing is left exactly of blanks.
  lemma LeftOfBlanks(t: string, s: string)
    requires IsTrimOf(t, s)
    ensures t == "" <==> forall k :: 0 <= k < |s| ==> IsBlankChar(s[k])
  {
    hide IsBlankChar;
    var i, j :| IsBetweenBlanks(t, s, i, j);
    if t != "" { assert t[0] == s[i]; }
  }

  lemma OneTrim(a: string, b: string, s: string)
    requires IsTrimOf(a, s) && IsTrimOf(b, s)
    ensures a == b
  {
    hide IsBlankChar;
    LeftOfBlanks(a, s);
    LeftOfBlanks(b, s);
    var i, j :| IsBetweenBlanks(a, s, i, j);
    var k, l :| IsBetweenBlanks(b, s, k, l);
    if a != "" {
      assert a[0] == s[i] && b[0] == s[k] && a[|a| - 1] == s[j - 1] && b[|b| - 1] == s[l - 1];
      assert i == k && j == l;
    }
  }

  lemma {:induction false} StrippedAre(parts: seq<string>, name: string)
    ensures name in Stripped(parts) <==> name != "" && exists part <- parts :: Strip(part) == name
  {
    hide Strip;
    if parts != [] {
      StrippedAre(parts[1..], name);
      var first := if Strip(parts[0]) != "" then [Strip(parts[0])] else [];
      assert Stripped(parts) == first + Stripped(parts[1..]);
      if part :| part in parts && Strip(part) == name { assert part == parts[0] || part in parts[1..]; }
    }
  }

  lemma SplitNamesAre(value: string, delimiter: char, name: string)
    ensures name in SplitNames(value, delimiter) <==> IsNameIn(name, value, delimiter)
  {
    hide Strip, Stripped, SplitOn, IsPiece, IsTrimOf;
    var parts := SplitOn(value, delimiter);
    StrippedAre(parts, name);
    if part :| part in parts && Strip(part) == name {
      SplitOnIs(value, delimiter, part);
      StripTrims(part);
    }
    if part :| IsPiece(part, value, delimiter) && IsTrimOf(name, part) {
      SplitOnIs(value, delimiter, part);
      StripTrims(part);
      OneTrim(name, Strip(part), part);
    }
  }

  lemma {:induction false} ReferencesAre(products: seq<Product>, priorities: seq<string>, name: string)
    ensures name in ReferencesOf(products, priorities) <==> IsReference(name, products, priorities)
    decreases |products| + |priorities|
  {
    hide SplitNames, IsNameIn;
    if priorities != [] {
      var n := |priorities| - 1;
      ReferencesAre(products, priorities[..n], name);
      SplitNamesAre(priorities[n], '+', name);
      assert priorities == priorities[..n] + [priorities[n]];
    } else if products != [] {
      var n := |products| - 1;
      ReferencesAre(products[..n], [], name);
      SplitNamesAre(products[n].primary, '+', name);
      SplitNamesAre(products[n].secondary, ',', name);
      assert products == products[..n] + [products[n]];
    }
  }

  // next(row for row in styles if row.get("Style ID") == id)
  function FirstRow(styles: seq<Style>, id: string): (row: Option<Style>)
    ensures row.Some? ==> row.value in styles && row.value.id == id
    ensures row.None? ==> forall s <- styles :: s.id != id
  {
    if styles == [] then None else if styles[0].id == id then Some(styles[0]) else FirstRow(styles[1..], id)
  }

  predicate IsReferenceProblem(p: Problem, styles: seq<Style>, owners: map<string, string>, references: seq<string>,
                               fold: string -> string) {
    match p
    case Unresolved(r) => r in references && (fold(r) !in owners || owners[fold(r)] == "")
    case TargetsDeprecated(r) =>
      && r in references && fold(r) in owners && owners[fold(r)] != ""
      && FirstRow(styles, owners[fold(r)]).Some? && FirstRow(styles, owners[fold(r)]).value.status == "deprecated"
    case _ => false
  }

  method CheckReferences(styles: seq<Style>, owners: map<string, string>, references: seq<string>,
                         fold: string -> string)
    returns (problems: seq<Problem>)
    requires forall x <- owners :: owners[x] in IdsOf(styles)
    ensures forall p :: p in problems <==> IsReferenceProblem(p, styles, owners, references, fold)
  {
    problems := [];
    var left := set r | r in references;
    while left != {}
      invariant forall r <- left :: r in references
      invariant forall p <- problems :: IsReferenceProblem(p, styles, owners, references, fold)
      invariant forall p :: IsReferenceProblem(p, styles, owners, references, fold) && p.reference !in left ==>
                  p in problems
      decreases left
    {
      var r :| r in left;
      if fold(r) !in owners || owners[fold(r)] == "" {
        problems := problems + [Unresolved(r)];
      } else if FirstRow(styles, owners[fold(r)]).value.status == "deprecated" {
        problems := problems + [TargetsDeprecated(r)];
      }
      left := left - {r};
    }
  }

  lemma {:induction false} OwnersAreIds(styles: seq<Style>, fold: string -> string)
    ensures forall x <- OwnersOf(styles, fold) :: OwnersOf(styles, fold)[x] in IdsOf(styles)
  {
    if styles != [] {
      var n := |styles| - 1;
      OwnersAreIds(styles[..n], fold);
      assert styles[n] in styles && forall s <- styles[..n] :: s in styles;
      forall x | x in OwnersOf(styles, fold) ensures OwnersOf(styles, fold)[x] in IdsOf(styles) {
        SetAllFinds(OwnersOf(styles[..n], fold), Identities(styles[n]), styles[n].id, fold, x);
      }
    }
  }

  // No row, parent or reference problem.
  ghost predicate IsSound(styles: seq<Style>, references: seq<string>, targets: map<string, set<string>>,
                          fold: string -> string) {
    && RowProblems(styles, targets, fold) == []
    && (forall p :: !IsParentProblem(p, RowsById(styles), ParentsOf(styles)))
    && (forall p :: !IsReferenceProblem(p, styles, OwnersOf(styles, fold), references, fold))
  }

  // The identity of some row leads from the name to a row that is not deprecated.
  predicate IsLive(styles: seq<Style>, name: string, fold: string -> string) {
    var owners := OwnersOf(styles, fold);
    && fold(name) in owners && owners[fold(name)] != ""
    && (var row := FirstRow(styles, owners[fold(name)]); row.Some? ==> row.value.status != "deprecated")
  }

  // No row problem, no parent problem, and every reference of a product or a priority leads to a live row.
  ghost predicate IsSoundFor(styles: seq<Style>, products: seq<Product>, priorities: seq<string>,
                             targets: map<string, set<string>>, fold: string -> string) {
    && RowProblems(styles, targets, fold) == []
    && (forall p :: !IsParentProblem(p, RowsById(styles), ParentsOf(styles)))
    && (forall name :: IsReference(name, products, priorities) ==> IsLive(styles, name, fold))
  }

  lemma SoundForIff(styles: seq<Style>, products: seq<Product>, priorities: seq<string>,
                    targets: map<string, set<string>>, fold: string -> string)
    ensures IsSoundFor(styles, products, priorities, targets, fold) <==>
              IsSound(styles, ReferencesOf(products, priorities), targets, fold)
  {
    hide RowProblems, IsParentProblem, RowsById, ParentsOf, IsReference, ReferencesOf, OwnersOf;
    var references, owners := ReferencesOf(products, priorities), OwnersOf(styles, fold);
    forall name: string
      ensures IsReference(name, products, priorities) <==> name in references
      ensures name in references ==>
                (IsLive(styles, name, fold) <==>
                   && !IsReferenceProblem(Unresolved(name), styles, owners, references, fold)
                   && !IsReferenceProblem(TargetsDeprecated(name), styles, owners, references, fold))
    {
      ReferencesAre(products, priorities, name);
    }
  }

  method CheckStyleContract(styles: seq<Style>, products: seq<Product>, priorities: seq<string>,
                            targets: map<string, set<string>>, fold: string -> string) returns (problems: seq<Problem>)
    ensures problems == [] <==> IsSoundFor(styles, products, priorities, targets, fold)
  {
    hide RowProblems, IsReferenceProblem, IsParentProblem, RowsById, OwnersOf, SplitNames, IsSoundFor;
    SoundForIff(styles, products, priorities, targets, fold);
    var rowProblems, owners, byId := CheckRows(styles, targets, fold);
    var parents := map id | id in byId :: byId[id].parent;
    assert parents == ParentsOf(styles);
    var parentProblems := CheckParents(byId, parents);
    var references := [];
    for i := 0 to |products|
      invariant references == ReferencesOf(products[..i], [])
    {
      assert products[..i + 1][..i] == products[..i];
      references := references + SplitNames(products[i].primary, '+') + SplitNames(products[i].secondary, ',');
    }
    assert products[..|products|] == products;
    for i := 0 to |priorities|
      invariant references == ReferencesOf(products, priorities[..i])
    {
      assert priorities[..i + 1][..i] == priorities[..i];
      references := references + SplitNames(priorities[i], '+');
    }
    assert priorities[..|priorities|] == priorities;
    OwnersAreIds(styles, fold);
    var referenceProblems := CheckReferences(styles, owners, references, fold);
    problems := rowProblems + parentProblems + referenceProblems;
    assert parentProblems != [] ==> parentProblems[0] in parentProblems;
    assert referenceProblems != [] ==> referenceProblems[0] in referenceProblems;
  }
}
