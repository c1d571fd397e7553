// What a clean validation says about the resolver, and what the resolver does on any data.

module StyleResolution {
  import opened Options
  import opened Text
  import opened StyleGraph

  // ---------------------------------------------------------------- what the row checks exclude

  lemma {:induction false} RowSound(styles: seq<Style>, i: nat, targets: map<string, set<string>>,
                                    fold: string -> string)
    requires RowProblems(styles, targets, fold) == [] && i < |styles|
    ensures FieldProblems(styles[i], IdsOf(styles[..i]), targets) == []
    ensures KeyProblems(OwnersOf(styles[..i], fold), Identities(styles[i]), styles[i].id, fold) == []
    decreases |styles|
  {
    hide FieldProblems, KeyProblems, Identities;
    var n := |styles| - 1;
    if i < n {
      RowSound(styles[..n], i, targets, fold);
      assert styles[..n][..i] == styles[..i];
    }
  }

  lemma PrefixSound(styles: seq<Style>, n: nat, targets: map<string, set<string>>, fold: string -> string)
    requires RowProblems(styles, targets, fold) == [] && n <= |styles|
    ensures RowProblems(styles[..n], targets, fold) == []
    decreases |styles| - n
  {
    hide FieldProblems, KeyProblems, Identities;
    if n < |styles| {
      PrefixSound(styles, n + 1, targets, fold);
      assert styles[..n + 1][..n] == styles[..n];
    } else {
      assert styles[..n] == styles;
    }
  }

  lemma KeySound(owners: map<string, string>, keys: seq<string>, id: string, fold: string -> string)
    requires keys != [] && KeyProblems(owners, keys, id, fold) == []
    ensures var n := |keys| - 1;
      var owner := Get(SetAll(owners, keys[..n], id, fold), fold(keys[n]));
      KeyProblems(owners, keys[..n], id, fold) == [] && (owner.Some? ==> owner.value == id)
  {
    hide SetAll;
  }

  lemma {:induction false} KeysSound(owners: map<string, string>, keys: seq<string>, id: string, fold: string -> string)
    requires KeyProblems(owners, keys, id, fold) == []
    ensures forall key <- keys :: fold(key) in owners ==> owners[fold(key)] == id
  {
    hide SetAll, KeyProblems;
    if keys != [] {
      var n := |keys| - 1;
      var owner := Get(SetAll(owners, keys[..n], id, fold), fold(keys[n]));
      KeySound(owners, keys, id, fold);
      KeysSound(owners, keys[..n], id, fold);
      SetAllFinds(owners, keys[..n], id, fold, fold(keys[n]));
      forall key | key in keys && fold(key) in owners ensures owners[fold(key)] == id {
        if key !in keys[..n] { assert key == keys[n]; }
      }
    }
  }

  lemma IdsDiffer(styles: seq<Style>, i: nat, j: nat, targets: map<string, set<string>>, fold: string -> string)
    requires RowProblems(styles, targets, fold) == [] && i < j < |styles|
    ensures styles[i].id != styles[j].id
  {
    hide RowProblems, KeyProblems;
    RowSound(styles, j, targets, fold);
    assert styles[..j][i] in styles[..j];
  }

  lemma DistinctIds(styles: seq<Style>, i: nat, j: nat, targets: map<string, set<string>>, fold: string -> string)
    requires RowProblems(styles, targets, fold) == [] && i < |styles| && j < |styles| && styles[i].id == styles[j].id
    ensures i == j
  {
    hide RowProblems;
    if i < j {
      IdsDiffer(styles, i, j, targets, fold);
    } else if j < i {
      IdsDiffer(styles, j, i, targets, fold);
    }
  }

  // Each identity belongs to its row.
  lemma {:induction false} Owned(styles: seq<Style>, i: nat, key: string, targets: map<string, set<string>>,
                                 fold: string -> string)
    requires RowProblems(styles, targets, fold) == [] && i < |styles| && key in Identities(styles[i])
    ensures Get(OwnersOf(styles, fold), fold(key)) == Some(styles[i].id)
    decreases |styles|
  {
    hide FieldProblems, Identities, KeyProblems, RowProblems, SetAll;
    var n := |styles| - 1;
    var before, keys := OwnersOf(styles[..n], fold), Identities(styles[n]);
    SetAllFinds(before, keys, styles[n].id, fold, fold(key));
    if i < n {
      PrefixSound(styles, n, targets, fold);
      Owned(styles[..n], i, key, targets, fold);
      RowSound(styles, n, targets, fold);
      KeysSound(before, keys, styles[n].id, fold);
    }
  }

  // ---------------------------------------------------------------- the two tables agree

  // The resolver strips categories, the validator does not.
  predicate IsTrimmed(s: Style) {
    Strip(s.category) == s.category
  }

  lemma {:induction false} IdCharacters(id: string)
    requires IsStyleId(id)
    ensures id != "" && forall c <- id :: 'a' <= c <= 'z' || '0' <= c <= '9' || c == '-'
    decreases |id|
  {
    var i := IndexOf(id, '-');
    var parts := SplitOn(id, '-');
    assert parts[0] in parts;
    if i < |id| {
      assert parts[1..] == SplitOn(id[i + 1..], '-') && forall part <- parts[1..] :: part in parts;
      IdCharacters(id[i + 1..]);
      assert id == id[..i] + ['-'] + id[i + 1..];
    }
  }

  lemma IdIsTrimmed(id: string)
    requires IsStyleId(id)
    ensures id != "" && Strip(id) == id
  {
    hide SplitOn, IsStyleId;
    IdCharacters(id);
    assert id[0] in id && id[|id| - 1] in id;
  }

  lemma IdOfRow(styles: seq<Style>, i: nat, targets: map<string, set<string>>, fold: string -> string)
    requires RowProblems(styles, targets, fold) == [] && i < |styles|
    ensures styles[i].id != "" && Strip(styles[i].id) == styles[i].id
  {
    hide RowProblems, KeyProblems, IsStyleId, Strip;
    RowSound(styles, i, targets, fold);
    IdIsTrimmed(styles[i].id);
  }

  lemma NamesAre(s: Style)
    requires s.id != "" && Strip(s.id) == s.id
    ensures forall key :: key in NamesOf(s) <==>
              key == s.id || (key == Strip(s.category) && key != "") || key in SplitNames(s.aliases, '|')
    ensures forall key <- NamesOf(s) :: key != "" && Strip(key) == key
  {
    hide Strip;
    var both := [s.id, s.category];
    assert both[1..] == [s.category] && [s.category][1..] == [] && Stripped([]) == [];
    var category := if Strip(s.category) != "" then [Strip(s.category)] else [];
    assert Stripped([s.category]) == category + Stripped([s.category][1..]);
    assert Stripped(both) == [s.id] + Stripped(both[1..]);
  }

  lemma NamesAreIdentities(s: Style)
    requires s.id != "" && Strip(s.id) == s.id && IsTrimmed(s)
    ensures forall key :: key in NamesOf(s) <==> key in Identities(s) && key != ""
  {
    hide Strip, NamesOf;
    NamesAre(s);
  }

  // No two rows answer to names that fold alike.
  ghost predicate NamesApart(styles: seq<Style>, fold: string -> string) {
    forall i, j, a, b :: 0 <= i < j < |styles| && a in NamesOf(styles[i]) && b in NamesOf(styles[j]) ==>
      fold(a) != fold(b)
  }

  lemma {:induction false} Found(styles: seq<Style>, i: nat, key: string, fold: string -> string)
    requires NamesApart(styles, fold) && i < |styles| && key in NamesOf(styles[i])
    ensures Get(StyleLookup(styles, fold), fold(key)) == Some(styles[i])
    decreases |styles|
  {
    hide NamesOf, SetAll;
    var n := |styles| - 1;
    SetAllFinds(StyleLookup(styles[..n], fold), NamesOf(styles[n]), styles[n], fold, fold(key));
    if i < n { Found(styles[..n], i, key, fold); }
  }

  // Every name leads to its own row.
  ghost predicate AllFound(styles: seq<Style>, fold: string -> string) {
    forall i, key :: 0 <= i < |styles| && key in NamesOf(styles[i]) ==>
      Get(StyleLookup(styles, fold), fold(key)) == Some(styles[i])
  }

  // On validated rows every name leads to its own row exactly when no two rows answer to names that fold alike.
  lemma AllFoundIff(styles: seq<Style>, targets: map<string, set<string>>, fold: string -> string)
    requires RowProblems(styles, targets, fold) == []
    ensures AllFound(styles, fold) <==> NamesApart(styles, fold)
  {
    hide RowProblems, NamesOf, StyleLookup;
    if NamesApart(styles, fold) {
      forall i, key | 0 <= i < |styles| && key in NamesOf(styles[i])
        ensures Get(StyleLookup(styles, fold), fold(key)) == Some(styles[i])
      {
        Found(styles, i, key, fold);
      }
    } else {
      var i, j, a, b :| && 0 <= i < j < |styles| && a in NamesOf(styles[i]) && b in NamesOf(styles[j])
                        && fold(a) == fold(b);
      IdsDiffer(styles, i, j, targets, fold);
      var lookup := StyleLookup(styles, fold);
      assert !(Get(lookup, fold(a)) == Some(styles[i]) && Get(lookup, fold(b)) == Some(styles[j]));
    }
  }

  // Validated rows whose categories have no blanks at their ends are such.
  lemma TrimmedAreApart(styles: seq<Style>, targets: map<string, set<string>>, fold: string -> string)
    requires RowProblems(styles, targets, fold) == [] && forall s <- styles :: IsTrimmed(s)
    ensures NamesApart(styles, fold)
  {
    hide RowProblems, NamesOf, Identities, OwnersOf, IsTrimmed;
    forall i, j, a, b | 0 <= i < j < |styles| && a in NamesOf(styles[i]) && b in NamesOf(styles[j])
      ensures fold(a) != fold(b)
    {
      IdOfRow(styles, i, targets, fold);
      IdOfRow(styles, j, targets, fold);
      assert styles[i] in styles && styles[j] in styles;
      NamesAreIdentities(styles[i]);
      NamesAreIdentities(styles[j]);
      Owned(styles, i, a, targets, fold);
      Owned(styles, j, b, targets, fold);
      IdsDiffer(styles, i, j, targets, fold);
    }
  }

  lemma {:induction false} OwnerOf(styles: seq<Style>, x: string, fold: string -> string) returns (i: nat, key: string)
    requires x in OwnersOf(styles, fold)
    ensures i < |styles| && key in Identities(styles[i]) && fold(key) == x && styles[i].id == OwnersOf(styles, fold)[x]
    decreases |styles|
  {
    hide Identities, SetAll;
    var n := |styles| - 1;
    var before, keys := OwnersOf(styles[..n], fold), Identities(styles[n]);
    SetAllFinds(before, keys, styles[n].id, fold, x);
    if k :| k in keys && fold(k) == x {
      i, key := n, k;
    } else {
      i, key := OwnerOf(styles[..n], x, fold);
    }
  }

  lemma {:induction false} RowOfId(styles: seq<Style>, id: string) returns (i: nat)
    requires id in RowsById(styles)
    ensures i < |styles| && styles[i] == RowsById(styles)[id] && styles[i].id == id
    decreases |styles|
  {
    var n := |styles| - 1;
    if styles[n].id == id { i := n; } else { i := RowOfId(styles[..n], id); }
  }

  lemma {:induction false} IdHasRow(styles: seq<Style>, i: nat)
    requires i < |styles|
    ensures styles[i].id in RowsById(styles)
    decreases |styles|
  {
    var n := |styles| - 1;
    if i < n { IdHasRow(styles[..n], i); }
  }

  // ---------------------------------------------------------------- what sound rows are

  predicate HasSoundFields(s: Style, targets: map<string, set<string>>) {
    && IsStyleId(s.id) && s.status in {"active", "supplemental", "deprecated"}
    && (s.status == "supplemental" ==> s.parent != "")
    && (s.status == "deprecated" ==>
          if s.parent != "" then s.replacementDomain == "" || s.replacementId == ""
          else s.replacementId != "" && s.replacementDomain != ""
               && s.replacementDomain in targets && s.replacementId in targets[s.replacementDomain])
    && (s.status != "deprecated" ==> s.replacementDomain == "" && s.replacementId == "")
  }

  // No two rows have the same id or identities that fold alike.
  ghost predicate IdentitiesApart(styles: seq<Style>, fold: string -> string) {
    && (forall i, j :: 0 <= i < j < |styles| ==> styles[i].id != styles[j].id)
    && forall i, j, a, b :: 0 <= i < j < |styles| && a in Identities(styles[i]) && b in Identities(styles[j]) ==>
         fold(a) != fold(b)
  }

  lemma FieldsSoundIff(s: Style, earlier: set<string>, targets: map<string, set<string>>)
    ensures FieldProblems(s, earlier, targets) == [] <==> s.id !in earlier && HasSoundFields(s, targets)
  {
    hide IsStyleId;
  }

  lemma {:induction false} OwnKeysSound(owners: map<string, string>, keys: seq<string>, id: string,
                                        fold: string -> string)
    requires forall key <- keys :: fold(key) !in owners
    ensures KeyProblems(owners, keys, id, fold) == []
  {
    hide SetAll;
    if keys != [] {
      var n := |keys| - 1;
      OwnKeysSound(owners, keys[..n], id, fold);
      SetAllFinds(owners, keys[..n], id, fold, fold(keys[n]));
      assert keys[n] in keys;
    }
  }

  lemma ApartPrefix(styles: seq<Style>, fold: string -> string)
    requires styles != [] && IdentitiesApart(styles, fold)
    ensures IdentitiesApart(styles[..|styles| - 1], fold)
  {
    hide Identities;
  }

  // The last row's identities are not owned yet.
  lemma LastIsNew(styles: seq<Style>, fold: string -> string)
    requires styles != [] && IdentitiesApart(styles, fold)
    ensures var n := |styles| - 1;
      && styles[n].id !in IdsOf(styles[..n])
      && forall key <- Identities(styles[n]) :: fold(key) !in OwnersOf(styles[..n], fold)
  {
    hide Identities, OwnersOf;
    var n := |styles| - 1;
    forall key | key in Identities(styles[n]) ensures fold(key) !in OwnersOf(styles[..n], fold) {
      if fold(key) in OwnersOf(styles[..n], fold) {
        var i, other := OwnerOf(styles[..n], fold(key), fold);
      }
    }
  }

  lemma {:induction false} ApartAreSound(styles: seq<Style>, targets: map<string, set<string>>, fold: string -> string)
    requires (forall s <- styles :: HasSoundFields(s, targets)) && IdentitiesApart(styles, fold)
    ensures RowProblems(styles, targets, fold) == []
    decreases |styles|
  {
    hide FieldProblems, KeyProblems, Identities, IdentitiesApart, HasSoundFields, OwnersOf;
    if styles != [] {
      var n := |styles| - 1;
      ApartPrefix(styles, fold);
      ApartAreSound(styles[..n], targets, fold);
      LastIsNew(styles, fold);
      FieldsSoundIff(styles[n], IdsOf(styles[..n]), targets);
      OwnKeysSound(OwnersOf(styles[..n], fold), Identities(styles[n]), styles[n].id, fold);
    }
  }

  lemma SoundAreApart(styles: seq<Style>, targets: map<string, set<string>>, fold: string -> string)
    requires RowProblems(styles, targets, fold) == []
    ensures IdentitiesApart(styles, fold)
  {
    hide RowProblems, Identities, OwnersOf;
    forall i, j | 0 <= i < j < |styles| ensures styles[i].id != styles[j].id { IdsDiffer(styles, i, j, targets, fold); }
    forall i, j, a, b | 0 <= i < j < |styles| && a in Identities(styles[i]) && b in Identities(styles[j])
      ensures fold(a) != fold(b)
    {
      Owned(styles, i, a, targets, fold);
      Owned(styles, j, b, targets, fold);
    }
  }

  // Main result: the rows have no problem exactly when each has sound fields, all ids differ, and no two rows have
  // identities that fold alike.
  lemma RowsSoundIff(styles: seq<Style>, targets: map<string, set<string>>, fold: string -> string)
    ensures RowProblems(styles, targets, fold) == [] <==>
              (forall s <- styles :: HasSoundFields(s, targets)) && IdentitiesApart(styles, fold)
  {
    hide RowProblems, FieldProblems, KeyProblems, Identities, IdentitiesApart, HasSoundFields, OwnersOf;
    if RowProblems(styles, targets, fold) == [] {
      SoundAreApart(styles, targets, fold);
      forall i | 0 <= i < |styles| ensures HasSoundFields(styles[i], targets) {
        RowSound(styles, i, targets, fold);
        FieldsSoundIff(styles[i], IdsOf(styles[..i]), targets);
      }
    } else if (forall s <- styles :: HasSoundFields(s, targets)) && IdentitiesApart(styles, fold) {
      ApartAreSound(styles, targets, fold);
    }
  }

  // ---------------------------------------------------------------- sound data resolves

  // The row that a row stands for: itself while live, its parent once deprecated.
  function StandsFor(styles: seq<Style>, s: Style): Option<Style> {
    if s.status != "deprecated" then Some(s) else Get(RowsById(styles), s.parent)
  }

  // Main result: on validated styles without clashing names every name of every row resolves to the row it stands for,
  // and the parent that a deprecated row stands for is active.
  lemma NamesResolve(styles: seq<Style>, references: seq<string>, i: nat, name: string,
                     targets: map<string, set<string>>, fold: string -> string)
    requires IsSound(styles, references, targets, fold) && NamesApart(styles, fold)
    requires i < |styles| && name in NamesOf(styles[i])
    ensures Resolved(StyleLookup(styles, fold), name, fold) == StandsFor(styles, styles[i])
    ensures styles[i].status == "deprecated" && styles[i].parent != "" ==>
              && StandsFor(styles, styles[i]).Some? && StandsFor(styles, styles[i]).value.status == "active"
              && StandsFor(styles, styles[i]).value.id == styles[i].parent
  {
    hide IsReferenceProblem, RowProblems, NamesOf, RowsById, StyleLookup, NamesApart, Strip;
    var s := styles[i];
    var lookup := StyleLookup(styles, fold);
    IdOfRow(styles, i, targets, fold);
    NamesAre(s);
    Found(styles, i, name, fold);
    if s.status == "deprecated" {
      if s.parent == "" {
        NoEmptyId(styles, targets, fold);
      } else {
        var p := ParentRow(styles, references, i, targets, fold);
        IdOfRow(styles, p, targets, fold);
        NamesAre(styles[p]);
        Found(styles, p, styles[p].id, fold);
        FollowParent(lookup, s, fold);
      }
    }
  }

  // Every deprecated row of validated styles has exactly one replacement: an active parent or a known redirect.
  lemma DeprecatedHasOneReplacement(styles: seq<Style>, references: seq<string>, i: nat,
                                    targets: map<string, set<string>>, fold: string -> string)
    requires IsSound(styles, references, targets, fold)
    requires i < |styles| && styles[i].status == "deprecated"
    ensures var s := styles[i];
      && (s.parent == "" <==> s.replacementDomain != "" && s.replacementId != "")
      && (s.parent == "" ==> s.replacementDomain in targets && s.replacementId in targets[s.replacementDomain])
      && (s.parent != "" ==> s.parent in RowsById(styles) && RowsById(styles)[s.parent].status == "active")
  {
    hide RowProblems, IsParentProblem, IsReferenceProblem, RowsById;
    RowSound(styles, i, targets, fold);
    if styles[i].parent != "" { var p := ParentRow(styles, references, i, targets, fold); }
  }

  lemma NoEmptyId(styles: seq<Style>, targets: map<string, set<string>>, fold: string -> string)
    requires RowProblems(styles, targets, fold) == []
    ensures "" !in RowsById(styles)
  {
    hide Strip, RowsById, RowProblems;
    forall id | id in RowsById(styles) ensures id != "" {
      var i := RowOfId(styles, id);
      IdOfRow(styles, i, targets, fold);
    }
  }

  lemma ParentRow(styles: seq<Style>, references: seq<string>, i: nat, targets: map<string, set<string>>,
                  fold: string -> string) returns (p: nat)
    requires IsSound(styles, references, targets, fold) && i < |styles| && styles[i].parent != ""
    ensures p < |styles| && styles[p].id == styles[i].parent && styles[p].status == "active"
    ensures styles[i].parent in RowsById(styles) && RowsById(styles)[styles[i].parent] == styles[p]
  {
    hide IsReferenceProblem, RowProblems, NeverEnds;
    var byId, parents := RowsById(styles), ParentsOf(styles);
    var id := styles[i].id;
    IdHasRow(styles, i);
    var r := RowOfId(styles, id);
    DistinctIds(styles, i, r, targets, fold);
    assert parents[id] == styles[i].parent;
    assert !IsParentProblem(InvalidParent(id), byId, parents) && !IsParentProblem(ParentNotActive(id), byId, parents);
    p := RowOfId(styles, styles[i].parent);
  }

  lemma FollowParent(lookup: map<string, Style>, s: Style, fold: string -> string)
    requires s in lookup.Values && s.status == "deprecated" && s.parent != ""
    requires fold(s.parent) in lookup && lookup[fold(s.parent)].status == "active"
    ensures Follow(lookup, Some(s), {}, fold) == Some(lookup[fold(s.parent)])
  {}

  // Main result: on validated data without clashing names every name that a product or a priority gives resolves, to a
  // row that is not deprecated and that the name stands for.
  lemma ReferencesResolve(styles: seq<Style>, products: seq<Product>, priorities: seq<string>, r: string,
                          targets: map<string, set<string>>, fold: string -> string)
    requires IsSoundFor(styles, products, priorities, targets, fold) && NamesApart(styles, fold) && IsCasefold(fold)
    requires IsReference(r, products, priorities)
    ensures var found := Resolved(StyleLookup(styles, fold), r, fold);
      && found.Some? && found.value in styles && found.value.status != "deprecated"
      && exists name <- NamesOf(found.value) :: fold(name) == fold(r)
  {
    hide IsParentProblem, RowProblems, NamesOf, StyleLookup, OwnersOf, ReferencesOf, Strip, NamesApart, SplitNames;
    hide IsReference, IsNameIn;
    TrimmedReference(r, products, priorities);
    assert IsLive(styles, r, fold);
    var i, key := OwnerOf(styles, fold(r), fold);
    IdOfRow(styles, i, targets, fold);
    NamesAre(styles[i]);
    Found(styles, i, key, fold);
    var first := FirstRow(styles, styles[i].id).value;
    var j :| 0 <= j < |styles| && styles[j] == first;
    DistinctIds(styles, i, j, targets, fold);
  }

  lemma TrimmedReference(r: string, products: seq<Product>, priorities: seq<string>)
    requires IsReference(r, products, priorities)
    ensures r != "" && Strip(r) == r
  {
    assert r != "" && !IsBlankChar(r[0]) && !IsBlankChar(r[|r| - 1]);
  }

  // ---------------------------------------------------------------- a category with a blank at its end

  function Same(s: string): string {
    s
  }

  const LIVE := Style("a", "Foo", "", "active", "", "", "")
  const RETIRED := Style("b", "Foo ", "", "deprecated", "", "d", "x")

  lemma NoAliases()
    ensures SplitNames("", '|') == []
  {
    assert SplitOn("", '|') == [""];
    assert Strip("") == "" && Stripped([""]) == Stripped([""][1..]);
  }

  lemma LettersAreIds()
    ensures IsStyleId("a") && IsStyleId("b")
  {
    assert SplitOn("a", '-') == ["a"] && SplitOn("b", '-') == ["b"];
  }

  lemma StripsFoo()
    ensures Strip("Foo") == "Foo" && Strip("Foo ") == "Foo" && Strip("a") == "a" && Strip("b") == "b"
  {
    assert "Foo "[..3] == "Foo";
  }

  lemma NamesOfBoth()
    ensures Identities(LIVE) == ["a", "Foo"] && NamesOf(LIVE) == ["a", "Foo"]
    ensures Identities(RETIRED) == ["b", "Foo "] && NamesOf(RETIRED) == ["b", "Foo"]
  {
    hide Strip, SplitNames, Stripped;
    NoAliases();
    StripsFoo();
    TwoStripped("a", "Foo");
    TwoStripped("b", "Foo ");
    assert ["a", "Foo"] + [] == ["a", "Foo"] && ["b", "Foo"] + [] == ["b", "Foo"];
    assert ["b", "Foo "] + [] == ["b", "Foo "];
  }

  lemma TwoStripped(a: string, b: string)
    requires Strip(a) != "" && Strip(b) != ""
    ensures Stripped([a, b]) == [Strip(a), Strip(b)]
  {
    hide Strip;
    assert [a, b][1..] == [b] && [b][1..] == [] && Stripped([]) == [];
    assert Stripped([b]) == [Strip(b)] + Stripped([b][1..]);
  }

  lemma TwoKeys<V>(table: map<string, V>, a: string, b: string, value: V)
    ensures SetAll(table, [a, b], value, Same) == table[a := value][b := value]
    ensures SetAll(table, [a], value, Same) == table[a := value]
  {
    assert [a, b][..1] == [a] && [a][..0] == [];
    assert SetAll(table, [a][..0], value, Same) == table;
  }

  lemma NoKeyProblems(owners: map<string, string>, a: string, b: string, id: string)
    requires (a in owners ==> owners[a] == id) && (b in owners ==> owners[b] == id)
    ensures KeyProblems(owners, [a, b], id, Same) == []
  {
    hide SetAll;
    TwoKeys(owners, a, b, id);
    NoKeys(owners, id);
    assert [a, b][..1] == [a] && [a][..0] == [];
    assert KeyProblems(owners, [a], id, Same) == KeyProblems(owners, [a][..0], id, Same) + [];
  }

  lemma NoKeys(owners: map<string, string>, id: string)
    ensures KeyProblems(owners, [], id, Same) == [] && SetAll(owners, [], id, Same) == owners
  {}

  lemma FieldsFine(targets: map<string, set<string>>)
    requires targets == map["d" := {"x"}]
    ensures FieldProblems(LIVE, {}, targets) == [] && FieldProblems(RETIRED, {"a"}, targets) == []
  {
    hide IsStyleId;
    LettersAreIds();
  }

  lemma RowPasses(styles: seq<Style>, s: Style, targets: map<string, set<string>>, fold: string -> string)
    requires RowProblems(styles, targets, fold) == [] && FieldProblems(s, IdsOf(styles), targets) == []
    requires KeyProblems(OwnersOf(styles, fold), Identities(s), s.id, fold) == []
    ensures RowProblems(styles + [s], targets, fold) == []
    ensures OwnersOf(styles + [s], fold) == SetAll(OwnersOf(styles, fold), Identities(s), s.id, fold)
    ensures RowsById(styles + [s]) == RowsById(styles)[s.id := s]
    ensures IdsOf(styles + [s]) == IdsOf(styles) + {s.id}
  {
    hide *;
    var all := styles + [s];
    assert all[..|styles|] == styles && all[|styles|] == s && all[..|styles| + 1] == all;
    RowStep(all, |styles|, targets, fold);
  }

  lemma LiveSound(targets: map<string, set<string>>)
    requires FieldProblems(LIVE, {}, targets) == []
    ensures RowProblems([LIVE], targets, Same) == [] && OwnersOf([LIVE], Same) == map["a" := "a", "Foo" := "a"]
    ensures RowsById([LIVE]) == map["a" := LIVE] && IdsOf([LIVE]) == {"a"}
  {
    hide KeyProblems, Identities, NamesOf, SetAll, FieldProblems, OwnersOf, RowProblems, RowsById, IdsOf;
    NamesOfBoth();
    NoRows(targets, Same);
    TwoKeys(map[], "a", "Foo", "a");
    NoKeyProblems(map[], "a", "Foo", "a");
    RowPasses([], LIVE, targets, Same);
    assert [] + [LIVE] == [LIVE];
  }

  lemma BothSound(targets: map<string, set<string>>)
    requires FieldProblems(LIVE, {}, targets) == [] && FieldProblems(RETIRED, {"a"}, targets) == []
    ensures RowProblems([LIVE, RETIRED], targets, Same) == []
    ensures RowsById([LIVE, RETIRED]) == map["a" := LIVE, "b" := RETIRED]
  {
    hide KeyProblems, Identities, NamesOf, SetAll, FieldProblems, OwnersOf, RowProblems, RowsById, IdsOf;
    LiveSound(targets);
    NamesOfBoth();
    NoKeyProblems(map["a" := "a", "Foo" := "a"], "b", "Foo ", "b");
    RowPasses([LIVE], RETIRED, targets, Same);
    assert [LIVE] + [RETIRED] == [LIVE, RETIRED];
  }

  lemma RootEnds(parents: map<string, string>)
    ensures !NeverEnds(parents, "")
  {
    assert IsEnd(Iterate(ParentStep(parents), "", 0));
  }

  lemma BothLookedUp()
    ensures StyleLookup([LIVE, RETIRED], Same) == map["a" := LIVE, "Foo" := RETIRED, "b" := RETIRED]
  {
    hide NamesOf, SetAll;
    NamesOfBoth();
    assert [LIVE, RETIRED][..1] == [LIVE] && [LIVE][..0] == [];
    assert StyleLookup([LIVE], Same) == SetAll(StyleLookup([LIVE][..0], Same), NamesOf(LIVE), LIVE, Same);
    TwoKeys(map[], "a", "Foo", LIVE);
    TwoKeys(map["a" := LIVE, "Foo" := LIVE], "b", "Foo", RETIRED);
  }

  lemma NoParents(styles: seq<Style>)
    requires forall id <- RowsById(styles) :: RowsById(styles)[id].parent == ""
    ensures forall p :: !IsParentProblem(p, RowsById(styles), ParentsOf(styles))
  {
    hide RowsById, NeverEnds;
    RootEnds(ParentsOf(styles));
  }

  lemma NothingFound(lookup: map<string, Style>)
    requires "Foo" in lookup && lookup["Foo"] == RETIRED
    ensures Resolved(lookup, "Foo", Same) == None
  {
    hide Strip;
    StripsFoo();
  }

  // The validator passes these two rows, and the live one is not found under its category any more.
  lemma UntrimmedCategoryHides()
    ensures var styles := [LIVE, RETIRED];
      && IsSound(styles, [], map["d" := {"x"}], Same)
      && "Foo" in NamesOf(LIVE) && StandsFor(styles, LIVE) == Some(LIVE)
      && Resolved(StyleLookup(styles, Same), "Foo", Same) == None
  {
    hide RowProblems, NamesOf, FieldProblems, IsParentProblem, RowsById, ParentsOf, StyleLookup, Resolved;
    var styles := [LIVE, RETIRED];
    FieldsFine(map["d" := {"x"}]);
    BothSound(map["d" := {"x"}]);
    BothLookedUp();
    NamesOfBoth();
    NoParents(styles);
    NothingFound(StyleLookup(styles, Same));
  }

  // ---------------------------------------------------------------- any data

  // One step of the resolver: a live row stays, a deprecated one gives way to its parent.
  function Hop(lookup: map<string, Style>, fold: string -> string): Option<Style> -> Option<Style> {
    (s: Option<Style>) =>
      if s.None? || s.value.status != "deprecated" then s
      else if s.value.parent == "" then None
      else Get(lookup, fold(s.value.parent))
  }

  predicate IsSettled(s: Option<Style>) {
    s.None? || s.value.status != "deprecated"
  }

  ghost predicate RowsHaveIds(lookup: map<string, Style>) {
    forall x <- lookup, y <- lookup :: lookup[x].id == lookup[y].id ==> lookup[x] == lookup[y]
  }

  // The walk so far: n unsettled steps whose ids were seen.
  ghost predicate IsTrail(lookup: map<string, Style>, start: Option<Style>, style: Option<Style>, seen: set<string>,
                          n: nat, fold: string -> string) {
    var f := Hop(lookup, fold);
    && style == Iterate(f, start, n) && (style.Some? ==> style.value in lookup.Values)
    && (forall m: nat :: m < n ==> !IsSettled(Iterate(f, start, m)))
    && (forall id <- seen :: PassedId(lookup, fold, start, n, id))
  }

  ghost predicate PassedStyle(lookup: map<string, Style>,
                              fold: string -> string, start: Option<Style>, n: nat, id: string, s: Style) {
    Passed(Hop(lookup, fold), start, n, Some(s)) && s.id == id && s in lookup.Values
  }

  ghost predicate PassedId(lookup: map<string, Style>, fold: string -> string, start: Option<Style>, n: nat,
                           id: string) {
    exists s :: PassedStyle(lookup, fold, start, n, id, s)
  }

  lemma TrailOn(lookup: map<string, Style>, start: Option<Style>, style: Option<Style>, seen: set<string>, n: nat,
                fold: string -> string)
    requires IsTrail(lookup, start, style, seen, n, fold) && !IsSettled(style)
    ensures IsTrail(lookup, start, Hop(lookup, fold)(style), seen + {style.value.id}, n + 1, fold)
  {
    var f := Hop(lookup, fold);
    assert Iterate(f, start, n + 1) == f(style);
    forall id | id in seen + {style.value.id} ensures PassedId(lookup, fold, start, n + 1, id) {
      if id == style.value.id {
        PassedNext(f, start, n, style);
        assert PassedStyle(lookup, fold, start, n + 1, id, style.value);
      } else {
        var s :| PassedStyle(lookup, fold, start, n, id, s);
        PassedNext(f, start, n, Some(s));
        assert PassedStyle(lookup, fold, start, n + 1, id, s);
      }
    }
  }

  // Coming back to an id means going round for ever.
  lemma TrailLoops(lookup: map<string, Style>, start: Option<Style>, style: Option<Style>, seen: set<string>, n: nat,
                   fold: string -> string)
    requires IsTrail(lookup, start, style, seen, n, fold) && !IsSettled(style) && RowsHaveIds(lookup)
    requires style.value.id in seen
    ensures forall m: nat :: !IsSettled(Iterate(Hop(lookup, fold), start, m))
  {
    var f := Hop(lookup, fold);
    var s :| PassedStyle(lookup, fold, start, n, style.value.id, s);
    assert s == style.value;
    var i: nat :| i < n && Iterate(f, start, i) == Some(s);
    forall m: nat ensures !IsSettled(Iterate(f, start, m)) { NeverStops(f, start, IsSettled, i, n, m); }
  }

  lemma {:induction false} SettledStays(lookup: map<string, Style>, start: Option<Style>, n: nat, d: nat,
                                        fold: string -> string)
    requires IsSettled(Iterate(Hop(lookup, fold), start, n))
    ensures Iterate(Hop(lookup, fold), start, n + d) == Iterate(Hop(lookup, fold), start, n)
  {
    if d > 0 { SettledStays(lookup, start, n, d - 1, fold); }
  }

  // Where following the parents settles, the resolver stops there; where it never settles, the resolver finds nothing.
  ghost predicate IsOutcome(lookup: map<string, Style>, start: Option<Style>, result: Option<Style>,
                            fold: string -> string) {
    var f := Hop(lookup, fold);
    && (forall n: nat :: IsSettled(Iterate(f, start, n)) ==> result == Iterate(f, start, n))
    && ((forall n: nat :: !IsSettled(Iterate(f, start, n))) ==> result == None)
  }

  lemma {:induction false} FollowOutcome(lookup: map<string, Style>, start: Option<Style>, style: Option<Style>,
                                         seen: set<string>, n: nat, fold: string -> string)
    requires IsTrail(lookup, start, style, seen, n, fold) && RowsHaveIds(lookup)
    ensures IsOutcome(lookup, start, Follow(lookup, style, seen, fold), fold)
    decreases |IdsIn(lookup) - seen|
  {
    hide IsTrail, RowsHaveIds;
    var f := Hop(lookup, fold);
    TrailValue(lookup, start, style, seen, n, fold);
    if IsSettled(style) {
      SettledOutcome(lookup, start, style, n, fold);
    } else if style.value.id in seen {
      TrailLoops(lookup, start, style, seen, n, fold);
    } else {
      TrailOn(lookup, start, style, seen, n, fold);
      if style.value.parent == "" {
        SettledOutcome(lookup, start, None, n + 1, fold);
      } else {
        assert style.value.id in IdsIn(lookup) - seen;
        SmallerSet(IdsIn(lookup) - (seen + {style.value.id}), IdsIn(lookup) - seen);
        FollowOutcome(lookup, start, f(style), seen + {style.value.id}, n + 1, fold);
      }
    }
  }

  lemma TrailValue(lookup: map<string, Style>, start: Option<Style>, style: Option<Style>, seen: set<string>, n: nat,
                   fold: string -> string)
    requires IsTrail(lookup, start, style, seen, n, fold)
    ensures style == Iterate(Hop(lookup, fold), start, n) && (style.Some? ==> style.value in lookup.Values)
    ensures forall m: nat :: m < n ==> !IsSettled(Iterate(Hop(lookup, fold), start, m))
    ensures !IsSettled(style) ==> Hop(lookup, fold)(style) == Iterate(Hop(lookup, fold), start, n + 1)
  {}

  lemma SettledOutcome(lookup: map<string, Style>, start: Option<Style>, result: Option<Style>, n: nat,
                       fold: string -> string)
    requires result == Iterate(Hop(lookup, fold), start, n) && IsSettled(result)
    requires forall m: nat :: m < n ==> !IsSettled(Iterate(Hop(lookup, fold), start, m))
    ensures IsOutcome(lookup, start, result, fold)
  {
    var f := Hop(lookup, fold);
    forall m: nat | IsSettled(Iterate(f, start, m)) ensures result == Iterate(f, start, m) {
      SettledStays(lookup, start, n, m - n, fold);
    }
  }

  // Main result, on any data whose rows have ids of their own, cyclic or not: the resolver returns the first live row
  // on the chain of parents, and nothing when the chain breaks off or never ends.
  lemma ResolverFollowsParents(lookup: map<string, Style>, reference: string, fold: string -> string)
    requires RowsHaveIds(lookup)
    ensures IsOutcome(lookup, Get(lookup, fold(Strip(reference))), Resolved(lookup, reference, fold), fold)
  {
    hide RowsHaveIds, Strip, Follow;
    var start := Get(lookup, fold(Strip(reference)));
    assert Iterate(Hop(lookup, fold), start, 0) == start;
    FollowOutcome(lookup, start, start, {}, 0, fold);
  }
}
