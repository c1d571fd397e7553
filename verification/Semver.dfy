// Version parsing and precedence (apps/api/src/app-version.ts).

module Semver {
  import opened Numbers
  import opened Options
  import opened Text

  const MAX_SAFE_INTEGER: nat := 0x1F_FFFF_FFFF_FFFF

  datatype Parts = Parts(major: nat, minor: nat, patch: nat, prerelease: Option<string>, build: Option<string>)

  predicate HasLeadingZero(s: string) {
    |s| >= 2 && s[0] == '0'
  }

  predicate IsIdentifierChar(c: char) {
    IsDigit(c) || 'a' <= c <= 'z' || 'A' <= c <= 'Z' || c == '.' || c == '-'
  }

  function Split(s: string): (parts: seq<string>)
    ensures parts != []
  {
    SplitOn(s, '.')
  }

  function Unsplit(parts: seq<string>): string {
    if parts == [] then "" else if |parts| == 1 then parts[0] else parts[0] + "." + Unsplit(parts[1..])
  }

  // ---------------------------------------------------------------- parsing

  predicate IsCorePart(s: string) {
    IsNumeric(s) && !HasLeadingZero(s) && Value(s) <= MAX_SAFE_INTEGER
  }

  // (\d+) with what follows it; None without a digit.
  function Number(s: string): Option<(string, string)> {
    var n := DigitsLength(s);
    if n == 0 then None else Some((s[..n], s[n..]))
  }

  // One or more identifier characters.
  predicate IsDottedText(s: string) {
    s != "" && forall c <- s :: IsIdentifierChar(c)
  }

  predicate IsPrereleaseIdentifier(s: string) {
    s != "" && !(HasLeadingZero(s) && IsNumeric(s))
  }

  // (?:\+([0-9A-Za-z.-]+))?$ on what is left: Some(None) without build metadata.
  function Build(s: string): Option<Option<string>> {
    if s == "" then Some(None)
    else if s[0] == '+' && IsDottedText(s[1..]) then Some(Some(s[1..]))
    else None
  }

  // (?:-([0-9A-Za-z.-]+))?(?:\+([0-9A-Za-z.-]+))?$
  function Suffix(s: string): Option<(Option<string>, Option<string>)> {
    if s != "" && s[0] == '-' then
      var i := IndexOf(s, '+');
      var build := Build(s[i..]);
      if IsDottedText(s[1..i]) && build.Some? then Some((Some(s[1..i]), build.value)) else None
    else
      var build := Build(s);
      if build.Some? then Some((None, build.value)) else None
  }

  function ParseSemver(value: string): (parts: Option<Parts>)
    ensures parts.Some? && parts.value.prerelease.Some? ==>
              forall id <- Split(parts.value.prerelease.value) :: IsPrereleaseIdentifier(id)
  {
    var t := Trim(value);
    var major := Number(if t != "" && t[0] == 'v' then t[1..] else t);
    if major.None? || !("." <= major.value.1) then None
    else
      var minor := Number(major.value.1[1..]);
      if minor.None? || !("." <= minor.value.1) then None
      else
        var patch := Number(minor.value.1[1..]);
        if patch.None? then None
        else
          var suffix := Suffix(patch.value.1);
          if suffix.None? then None
          else
            var (prerelease, build) := suffix.value;
            if !IsCorePart(major.value.0) || !IsCorePart(minor.value.0) || !IsCorePart(patch.value.0) then None
            else if prerelease.Some? && exists id <- Split(prerelease.value) :: !IsPrereleaseIdentifier(id) then None
            else if build.Some? && "" in Split(build.value) then None
            else Some(Parts(Value(major.value.0), Value(minor.value.0), Value(patch.value.0), prerelease, build))
  }

  // ---------------------------------------------------------------- comparing

  // left < right on strings: code unit by code unit.
  predicate StringLess(left: string, right: string) {
    right != "" && (left == "" || left[0] < right[0] || (left[0] == right[0] && StringLess(left[1..], right[1..])))
  }

  // Two different identifiers.
  function CompareIdentifiers(left: string, right: string): int {
    if IsNumeric(left) && IsNumeric(right) then if Value(left) < Value(right) then -1 else 1
    else if IsNumeric(left) != IsNumeric(right) then if IsNumeric(left) then -1 else 1
    else if StringLess(left, right) then -1
    else 1
  }

  function CompareLists(left: seq<string>, right: seq<string>): int {
    if left == [] && right == [] then 0
    else if left == [] then -1
    else if right == [] then 1
    else if left[0] == right[0] then CompareLists(left[1..], right[1..])
    else CompareIdentifiers(left[0], right[0])
  }

  function CompareParts(a: Parts, b: Parts): int {
    if a.major != b.major then a.major - b.major
    else if a.minor != b.minor then a.minor - b.minor
    else if a.patch != b.patch then a.patch - b.patch
    else if a.prerelease == b.prerelease then 0
    else if a.prerelease.None? then 1
    else if b.prerelease.None? then -1
    else CompareLists(Split(a.prerelease.value), Split(b.prerelease.value))
  }

  // `collate` is localeCompare, which orders what is no version.
  function CompareStrings(left: string, right: string, collate: (string, string) -> int): int {
    var a, b := ParseSemver(left), ParseSemver(right);
    if a.None? && b.None? then collate(left, right)
    else if a.None? then -1
    else if b.None? then 1
    else CompareParts(a.value, b.value)
  }

  method CompareSemver(left: string, right: string, collate: (string, string) -> int) returns (order: int)
    ensures order == CompareStrings(left, right, collate)
  {
    hide ParseSemver, Split, CompareIdentifiers;
    var parsedLeft, parsedRight := ParseSemver(left), ParseSemver(right);
    if parsedLeft.None? && parsedRight.None? { return collate(left, right); }
    if parsedLeft.None? { return -1; }
    if parsedRight.None? { return 1; }
    var a, b := parsedLeft.value, parsedRight.value;
    if a.major != b.major { return a.major - b.major; }
    if a.minor != b.minor { return a.minor - b.minor; }
    if a.patch != b.patch { return a.patch - b.patch; }
    if a.prerelease == b.prerelease { return 0; }
    if a.prerelease.None? { return 1; }
    if b.prerelease.None? { return -1; }
    var leftParts, rightParts := Split(a.prerelease.value), Split(b.prerelease.value);
    var index := 0;
    while index < |leftParts| || index < |rightParts|
      invariant index <= |leftParts| && index <= |rightParts|
      invariant CompareLists(leftParts[index..], rightParts[index..]) == CompareLists(leftParts, rightParts)
      decreases |leftParts| - index
    {
      if index == |leftParts| { return -1; }
      if index == |rightParts| { return 1; }
      var leftPart, rightPart := leftParts[index], rightParts[index];
      assert leftParts[index..][1..] == leftParts[index + 1..] && rightParts[index..][1..] == rightParts[index + 1..];
      if leftPart != rightPart { return CompareIdentifiers(leftPart, rightPart); }
      index := index + 1;
    }
    return 0;
  }

  function SemverOffsetRecent(current: string, latest: string, collate: (string, string) -> int): int {
    if CompareStrings(current, latest, collate) >= 0 then 0
    else
      var a, b := ParseSemver(current), ParseSemver(latest);
      if a.None? || b.None? then 1
      else Max(b.value.major - a.value.major,
               Max(b.value.minor - a.value.minor, b.value.patch - a.value.patch))
  }

  // ------------------------------------------------------------ precedence, as section 11 of SemVer 2.0.0 states it

  // The lists agree below i, where one ends or they differ.
  ghost predicate IsFirstDifference<T>(left: seq<T>, right: seq<T>, i: nat) {
    && i <= |left| && i <= |right| && left[..i] == right[..i]
    && (i < |left| || i < |right|) && (i < |left| && i < |right| ==> left[i] != right[i])
  }

  ghost predicate PrecedesAt<T>(left: seq<T>, right: seq<T>, less: (T, T) -> bool, i: nat) {
    IsFirstDifference(left, right, i) && (i == |left| || (i < |right| && less(left[i], right[i])))
  }

  // The first difference decides; a proper prefix comes first.
  ghost predicate LexPrecedes<T>(left: seq<T>, right: seq<T>, less: (T, T) -> bool) {
    exists i: nat :: PrecedesAt(left, right, less, i)
  }

  predicate CharLess(x: char, y: char) {
    x < y
  }

  // Identifiers of digits only compare as numbers, others in ASCII order; digits come first.
  ghost predicate IdentifierPrecedes(left: string, right: string) {
    if IsNumeric(left) then !IsNumeric(right) || Value(left) < Value(right)
    else !IsNumeric(right) && LexPrecedes(left, right, CharLess)
  }

  ghost predicate IdentifiersPrecede(left: seq<string>, right: seq<string>) {
    LexPrecedes(left, right, IdentifierPrecedes)
  }

  // Core numbers first; a prerelease precedes its release; then the first prerelease identifier that differs.
  ghost predicate Precedes(a: Parts, b: Parts) {
    if a.major != b.major then a.major < b.major
    else if a.minor != b.minor then a.minor < b.minor
    else if a.patch != b.patch then a.patch < b.patch
    else
      && a.prerelease.Some?
      && (b.prerelease.Some? ==> IdentifiersPrecede(Split(a.prerelease.value), Split(b.prerelease.value)))
  }

  ghost predicate SamePrecedence(a: Parts, b: Parts) {
    a.major == b.major && a.minor == b.minor && a.patch == b.patch && a.prerelease == b.prerelease
  }

  // ---------------------------------------------------------------- digits

  lemma {:induction false} ZeroValue(s: string)
    requires IsNumeric(s) && !HasLeadingZero(s) && Value(s) == 0
    ensures s == "0"
  {
    var n := |s| - 1;
    assert s[n] in s;
    if n > 0 {
      assert forall c <- s[..n] :: c in s;
      ZeroValue(s[..n]);
    }
  }

  // Without leading zeros, a number is written in one way.
  lemma {:induction false} ValueInjective(a: string, b: string)
    requires IsNumeric(a) && IsNumeric(b) && !HasLeadingZero(a) && !HasLeadingZero(b) && Value(a) == Value(b)
    ensures a == b
  {
    var m, n := |a| - 1, |b| - 1;
    assert a[m] in a && b[n] in b;
    assert (forall c <- a[..m] :: c in a) && (forall c <- b[..n] :: c in b);
    assert Value(a[..m]) == Value(b[..n]) && a[m] == b[n];
    assert a == a[..m] + [a[m]] && b == b[..n] + [b[n]];
    if m > 0 && n > 0 {
      ValueInjective(a[..m], b[..n]);
    } else if m > 0 {
      ZeroValue(a[..m]);
    } else if n > 0 {
      ZeroValue(b[..n]);
    }
  }

  // ---------------------------------------------------------------- what parses

  function PrereleaseText(prerelease: Option<string>): string {
    if prerelease.Some? then "-" + prerelease.value else ""
  }

  function BuildText(build: Option<string>): string {
    if build.Some? then "+" + build.value else ""
  }

  // What the pattern matches and the conditions let through.
  ghost predicate IsMatched(t: string, v: bool, x: string, y: string, z: string,
                            prerelease: Option<string>, build: Option<string>) {
    && t == (if v then "v" else "") + (x + ("." + (y + ("." + (z + (PrereleaseText(prerelease) + BuildText(build)))))))
    && IsCorePart(x) && IsCorePart(y) && IsCorePart(z)
    && (prerelease.Some? ==> IsDottedText(prerelease.value) && AreIdentifiers(Split(prerelease.value)))
    && (build.Some? ==> IsDottedText(build.value) && "" !in Split(build.value))
  }

  ghost predicate AreIdentifiers(ids: seq<string>) {
    forall id <- ids :: IsPrereleaseIdentifier(id)
  }

  lemma {:induction false} DigitsThen(x: string, rest: string)
    requires (forall c <- x :: IsDigit(c)) && (rest != "" ==> !IsDigit(rest[0]))
    ensures DigitsLength(x + rest) == |x|
  {
    if x == "" {
      assert x + rest == rest;
    } else {
      assert (x + rest)[1..] == x[1..] + rest;
      DigitsThen(x[1..], rest);
    }
  }

  lemma NumberThen(x: string, rest: string)
    requires IsNumeric(x) && (rest != "" ==> !IsDigit(rest[0]))
    ensures Number(x + rest) == Some((x, rest))
  {
    DigitsThen(x, rest);
    assert (x + rest)[..|x|] == x && (x + rest)[|x|..] == rest;
  }

  lemma SuffixThen(prerelease: Option<string>, build: Option<string>)
    requires (prerelease.Some? ==> IsDottedText(prerelease.value)) && (build.Some? ==> IsDottedText(build.value))
    ensures Suffix(PrereleaseText(prerelease) + BuildText(build)) == Some((prerelease, build))
  {
    hide IsIdentifierChar;
    var s := PrereleaseText(prerelease) + BuildText(build);
    assert Build(BuildText(build)) == Some(build);
    if prerelease.Some? {
      assert !IsIdentifierChar('+') by { PlusEndsIdentifiers(); }
      var head := "-" + prerelease.value;
      if build.Some? {
        assert s == head + ['+'] + build.value;
        IndexOfAt(head, '+', build.value);
      } else {
        assert s == head;
      }
      assert s[1..|head|] == prerelease.value && s[|head|..] == BuildText(build);
    } else {
      assert s == BuildText(build);
    }
  }

  lemma PlusEndsIdentifiers()
    ensures !IsIdentifierChar('+')
  {}

  lemma ParseReadsMatched(value: string, v: bool, x: string, y: string, z: string,
                          prerelease: Option<string>, build: Option<string>)
    requires IsMatched(Trim(value), v, x, y, z, prerelease, build)
    ensures ParseSemver(value) == Some(Parts(Value(x), Value(y), Value(z), prerelease, build))
  {
    hide Trim, Number, Suffix, Split, IsPrereleaseIdentifier, IsDottedText;
    var s3 := PrereleaseText(prerelease) + BuildText(build);
    var s2 := y + ("." + (z + s3));
    var s1 := x + ("." + s2);
    NumberThen(x, "." + s2);
    NumberThen(y, "." + (z + s3));
    NumberThen(z, s3);
    SuffixThen(prerelease, build);
    assert ("." + s2)[1..] == s2 && ("." + (z + s3))[1..] == z + s3;
    assert v ==> ("v" + s1)[1..] == s1;
    assert !v ==> "" + s1 == s1;
    assert x[0] in x;
  }

  lemma NumberOf(s: string)
    requires Number(s).Some?
    ensures s == Number(s).value.0 + Number(s).value.1
  {}

  lemma SuffixOf(s: string)
    requires Suffix(s).Some?
    ensures var (prerelease, build) := Suffix(s).value;
      && s == PrereleaseText(prerelease) + BuildText(build)
      && (prerelease.Some? ==> IsDottedText(prerelease.value)) && (build.Some? ==> IsDottedText(build.value))
  {
    hide IsIdentifierChar;
    if s != "" && s[0] == '-' {
      var i := IndexOf(s, '+');
      assert s == "-" + s[1..i] + s[i..];
      assert i < |s| ==> s[i..] == "+" + s[i..][1..];
    } else if s != "" {
      assert s == "+" + s[1..];
    }
  }

  lemma ParsedIsMatched(value: string) returns (v: bool, x: string, y: string, z: string)
    requires ParseSemver(value).Some?
    ensures var p := ParseSemver(value).value;
      && IsMatched(Trim(value), v, x, y, z, p.prerelease, p.build)
      && p.major == Value(x) && p.minor == Value(y) && p.patch == Value(z)
  {
    hide Trim, Number, Suffix, Split, IsPrereleaseIdentifier, IsDottedText, IsCorePart, Value;
    hide PrereleaseText, BuildText;
    var t := Trim(value);
    v := t != "" && t[0] == 'v';
    var s1 := if v then t[1..] else t;
    NumberOf(s1);
    x := Number(s1).value.0;
    var s2 := Number(s1).value.1[1..];
    assert Number(s1).value.1 == "." + s2;
    NumberOf(s2);
    y := Number(s2).value.0;
    var s3 := Number(s2).value.1[1..];
    assert Number(s2).value.1 == "." + s3;
    NumberOf(s3);
    z := Number(s3).value.0;
    SuffixOf(Number(s3).value.1);
    assert t == (if v then "v" else "") + s1;
  }

  // ---------------------------------------------------------------- the grammar of SemVer 2.0.0, sections 2, 9 and 10

  // A number without leading zeros.
  predicate IsNumberText(s: string) {
    s != "" && (forall c <- s :: '0' <= c <= '9') && (s[0] == '0' ==> |s| == 1)
  }

  // Letters, digits and hyphens.
  predicate IsIdentifierText(s: string) {
    s != "" && forall c <- s :: '0' <= c <= '9' || 'a' <= c <= 'z' || 'A' <= c <= 'Z' || c == '-'
  }

  // Identifiers between dots; those of digits only are numbers.
  ghost predicate IsPrereleaseText(s: string) {
    forall part :: IsPiece(part, s, '.') ==>
      IsIdentifierText(part) && ((forall c <- part :: '0' <= c <= '9') ==> IsNumberText(part))
  }

  ghost predicate IsBuildText(s: string) {
    forall part :: IsPiece(part, s, '.') ==> IsIdentifierText(part)
  }

  // A version with core numbers below 2^53 and an optional v in front.
  ghost predicate IsRendering(t: string, v: bool, x: string, y: string, z: string,
                              prerelease: Option<string>, build: Option<string>) {
    && t == (if v then "v" else "") + (x + ("." + (y + ("." + (z + (PrereleaseText(prerelease) + BuildText(build)))))))
    && IsNumberText(x) && IsNumberText(y) && IsNumberText(z)
    && Value(x) < 0x20_0000_0000_0000 && Value(y) < 0x20_0000_0000_0000 && Value(z) < 0x20_0000_0000_0000
    && (prerelease.Some? ==> IsPrereleaseText(prerelease.value))
    && (build.Some? ==> IsBuildText(build.value))
  }

  predicate IsOfIdentifierChars(s: string) {
    forall c <- s :: IsIdentifierChar(c)
  }

  // A text is one of identifier characters exactly when each piece between its dots is.
  lemma {:induction false} PiecesOfCharacters(s: string)
    ensures IsOfIdentifierChars(s) <==> forall part <- Split(s) :: IsOfIdentifierChars(part)
    ensures forall part <- Split(s) :: '.' !in part
    decreases |s|
  {
    hide IsOfIdentifierChars;
    var i := IndexOf(s, '.');
    if i < |s| {
      PiecesOfCharacters(s[i + 1..]);
      assert s == s[..i] + ['.'] + s[i + 1..];
      CharactersOfBoth(s[..i], s[i + 1..]);
    }
  }

  lemma CharactersOfBoth(a: string, b: string)
    ensures IsOfIdentifierChars(a + ['.'] + b) <==> IsOfIdentifierChars(a) && IsOfIdentifierChars(b)
  {
    hide IsIdentifierChar;
    var s := a + ['.'] + b;
    assert IsIdentifierChar('.') by { DotIsIdentifierChar(); }
    if IsOfIdentifierChars(s) {
      forall c | c in a ensures IsIdentifierChar(c) { assert c in s; }
      forall c | c in b ensures IsIdentifierChar(c) { assert c in s; }
    }
  }

  lemma DotIsIdentifierChar()
    ensures IsIdentifierChar('.')
  {}

  lemma IdentifierTextIs(s: string)
    ensures IsIdentifierText(s) <==> s != "" && IsOfIdentifierChars(s) && '.' !in s
    ensures IsNumberText(s) <==> IsNumeric(s) && !HasLeadingZero(s)
    ensures (forall c <- s :: '0' <= c <= '9') <==> forall c <- s :: IsDigit(c)
  {}

  lemma DottedTextIs(s: string)
    ensures IsDottedText(s) && "" !in Split(s) <==> IsBuildText(s)
    ensures IsDottedText(s) && AreIdentifiers(Split(s)) <==> IsPrereleaseText(s)
  {
    hide IsIdentifierChar, IsIdentifierText, IsNumberText, IsNumeric, HasLeadingZero, Split, IsPiece;
    assert IsDottedText(s) <==> s != "" && IsOfIdentifierChars(s);
    PiecesOfCharacters(s);
    EmptyPieces();
    forall part ensures part in Split(s) <==> IsPiece(part, s, '.') { PieceIs(s, part); }
    forall part ensures IsIdentifierText(part) <==> part != "" && IsOfIdentifierChars(part) && '.' !in part {
      IdentifierTextIs(part);
    }
    forall part
      ensures IsPrereleaseIdentifier(part)
           <==> part != "" && ((forall c <- part :: '0' <= c <= '9') ==> IsNumberText(part))
    {
      PrereleaseIdentifierIs(part);
    }
  }

  lemma PieceIs(s: string, part: string)
    ensures part in Split(s) <==> IsPiece(part, s, '.')
  {
    SplitOnIs(s, '.', part);
  }

  lemma EmptyPieces()
    ensures "" in Split("")
  {}

  lemma PrereleaseIdentifierIs(s: string)
    ensures IsPrereleaseIdentifier(s) <==> s != "" && ((forall c <- s :: '0' <= c <= '9') ==> IsNumberText(s))
  {
    hide IsNumberText;
    IdentifierTextIs(s);
  }

  lemma MatchedIff(t: string, v: bool, x: string, y: string, z: string,
                   prerelease: Option<string>, build: Option<string>)
    ensures IsMatched(t, v, x, y, z, prerelease, build) <==> IsRendering(t, v, x, y, z, prerelease, build)
  {
    hide IsDottedText, AreIdentifiers, IsPrereleaseText, IsBuildText, IsNumberText, Split;
    IdentifierTextIs(x);
    IdentifierTextIs(y);
    IdentifierTextIs(z);
    if prerelease.Some? { DottedTextIs(prerelease.value); }
    if build.Some? { DottedTextIs(build.value); }
  }

  // Main result: exactly the versions of the grammar parse, each to its own parts.
  lemma ParseReadsRendering(value: string, v: bool, x: string, y: string, z: string,
                            prerelease: Option<string>, build: Option<string>)
    requires IsRendering(Trim(value), v, x, y, z, prerelease, build)
    ensures ParseSemver(value) == Some(Parts(Value(x), Value(y), Value(z), prerelease, build))
  {
    hide ParseSemver, IsMatched;
    MatchedIff(Trim(value), v, x, y, z, prerelease, build);
    ParseReadsMatched(value, v, x, y, z, prerelease, build);
  }

  lemma ParsedIsRendering(value: string) returns (v: bool, x: string, y: string, z: string)
    requires ParseSemver(value).Some?
    ensures var p := ParseSemver(value).value;
      && IsRendering(Trim(value), v, x, y, z, p.prerelease, p.build)
      && p.major == Value(x) && p.minor == Value(y) && p.patch == Value(z)
  {
    hide ParseSemver, IsMatched;
    v, x, y, z := ParsedIsMatched(value);
    var p := ParseSemver(value).value;
    MatchedIff(Trim(value), v, x, y, z, p.prerelease, p.build);
  }

  // ---------------------------------------------------------------- lexicographic orders

  lemma LexBase<T>(left: seq<T>, right: seq<T>, less: (T, T) -> bool)
    requires left == [] || right == [] || left[0] != right[0]
    ensures LexPrecedes(left, right, less) <==> right != [] && (left == [] || less(left[0], right[0]))
  {
    if right != [] && (left == [] || less(left[0], right[0])) { assert PrecedesAt(left, right, less, 0); }
    if LexPrecedes(left, right, less) {
      var i: nat :| PrecedesAt(left, right, less, i);
      assert i == 0;
    }
  }

  lemma LexStep<T>(left: seq<T>, right: seq<T>, less: (T, T) -> bool)
    requires left != [] && right != [] && left[0] == right[0]
    ensures LexPrecedes(left, right, less) <==> LexPrecedes(left[1..], right[1..], less)
  {
    if LexPrecedes(left[1..], right[1..], less) {
      var i: nat :| PrecedesAt(left[1..], right[1..], less, i);
      assert left[..i + 1] == [left[0]] + left[1..][..i] && right[..i + 1] == [right[0]] + right[1..][..i];
      assert PrecedesAt(left, right, less, i + 1);
    }
    if LexPrecedes(left, right, less) {
      var i: nat :| PrecedesAt(left, right, less, i);
      assert left[1..][..i - 1] == left[..i][1..] && right[1..][..i - 1] == right[..i][1..];
      assert PrecedesAt(left[1..], right[1..], less, i - 1);
    }
  }

  // On the elements that occur, the order is total and asymmetric.
  ghost predicate IsTotalOn<T>(left: seq<T>, right: seq<T>, less: (T, T) -> bool) {
    forall x <- left, y <- right :: x != y ==> (less(x, y) <==> !less(y, x))
  }

  lemma {:induction false} LexTrichotomy<T>(left: seq<T>, right: seq<T>, less: (T, T) -> bool)
    requires IsTotalOn(left, right, less)
    ensures left != right ==> (LexPrecedes(left, right, less) <==> !LexPrecedes(right, left, less))
    ensures left == right ==> !LexPrecedes(left, right, less)
  {
    hide LexPrecedes;
    if left == [] || right == [] || left[0] != right[0] {
      LexBase(left, right, less);
      LexBase(right, left, less);
    } else {
      LexStep(left, right, less);
      LexStep(right, left, less);
      LexTrichotomy(left[1..], right[1..], less);
      assert left == [left[0]] + left[1..] && right == [right[0]] + right[1..];
    }
  }

  ghost predicate IsTransitiveOn<T>(a: seq<T>, b: seq<T>, c: seq<T>, less: (T, T) -> bool) {
    forall x <- a, y <- b, z <- c :: less(x, y) && less(y, z) ==> x != z && less(x, z)
  }

  lemma {:induction false} LexTransitive<T>(a: seq<T>, b: seq<T>, c: seq<T>, less: (T, T) -> bool)
    requires IsTransitiveOn(a, b, c, less) && LexPrecedes(a, b, less) && LexPrecedes(b, c, less)
    ensures LexPrecedes(a, c, less)
  {
    hide LexPrecedes;
    if a == [] || b == [] || c == [] {
      LexEmpty(a, b, less);
      LexEmpty(b, c, less);
      LexBase(a, c, less);
    } else if a[0] != b[0] && b[0] != c[0] {
      LexBase(a, b, less);
      LexBase(b, c, less);
      LexBase(a, c, less);
    } else if a[0] != b[0] {
      LexBase(a, b, less);
      LexBase(a, c, less);
    } else if b[0] != c[0] {
      LexBase(b, c, less);
      LexBase(a, c, less);
    } else {
      LexStep(a, b, less);
      LexStep(b, c, less);
      LexStep(a, c, less);
      LexTransitive(a[1..], b[1..], c[1..], less);
    }
  }

  lemma LexEmpty<T>(left: seq<T>, right: seq<T>, less: (T, T) -> bool)
    requires LexPrecedes(left, right, less)
    ensures right != []
  {}

  // ---------------------------------------------------------------- the code's comparisons are these orders

  lemma {:induction false} StringLessIsAscii(left: string, right: string)
    ensures StringLess(left, right) <==> LexPrecedes(left, right, CharLess)
  {
    hide LexPrecedes;
    if left == "" || right == "" || left[0] != right[0] {
      LexBase(left, right, CharLess);
    } else {
      LexStep(left, right, CharLess);
      StringLessIsAscii(left[1..], right[1..]);
    }
  }

  lemma IdentifierOrder(left: string, right: string)
    ensures CompareIdentifiers(left, right) < 0 <==> IdentifierPrecedes(left, right)
    ensures CompareIdentifiers(left, right) != 0
  {
    hide LexPrecedes;
    StringLessIsAscii(left, right);
  }

  lemma {:induction false} ListOrder(left: seq<string>, right: seq<string>)
    ensures CompareLists(left, right) < 0 <==> IdentifiersPrecede(left, right)
    ensures CompareLists(left, right) == 0 <==> left == right
  {
    hide LexPrecedes, CompareIdentifiers, IdentifierPrecedes;
    if left == [] || right == [] || left[0] != right[0] {
      LexBase(left, right, IdentifierPrecedes);
      if left != [] && right != [] { IdentifierOrder(left[0], right[0]); }
    } else {
      LexStep(left, right, IdentifierPrecedes);
      ListOrder(left[1..], right[1..]);
      assert left == [left[0]] + left[1..] && right == [right[0]] + right[1..];
    }
  }

  // Two ways to write one number compare as greater both ways: the comparison is a strict total order on identifiers
  // exactly where different numbers have different values.
  lemma IdentifierTotalIff(left: string, right: string)
    requires left != right
    ensures (IdentifierPrecedes(left, right) <==> !IdentifierPrecedes(right, left))
       <==> !(IsNumeric(left) && IsNumeric(right) && Value(left) == Value(right))
  {
    hide LexPrecedes;
    assert IsTotalOn(left, right, CharLess);
    LexTrichotomy(left, right, CharLess);
  }

  lemma IdentifierTransitive(a: string, b: string, c: string)
    requires IdentifierPrecedes(a, b) && IdentifierPrecedes(b, c)
    ensures a != c && IdentifierPrecedes(a, c)
  {
    hide LexPrecedes;
    if !IsNumeric(a) {
      assert IsTransitiveOn(a, b, c, CharLess);
      LexTransitive(a, b, c, CharLess);
    }
    LexTrichotomy(a, c, CharLess);
  }

  lemma IdentifiersTotal(left: seq<string>, right: seq<string>)
    requires AreIdentifiers(left) && AreIdentifiers(right)
    ensures left != right ==> (IdentifiersPrecede(left, right) <==> !IdentifiersPrecede(right, left))
    ensures !IdentifiersPrecede(left, left)
  {
    hide LexPrecedes, IdentifierPrecedes;
    forall x, y | x in left && y in right && x != y ensures IdentifierPrecedes(x, y) <==> !IdentifierPrecedes(y, x) {
      IdentifierTotalIff(x, y);
      if IsNumeric(x) && IsNumeric(y) && Value(x) == Value(y) { ValueInjective(x, y); }
    }
    LexTrichotomy(left, right, IdentifierPrecedes);
    forall x, y | x in left && y in left && x != y ensures IdentifierPrecedes(x, y) <==> !IdentifierPrecedes(y, x) {
      IdentifierTotalIff(x, y);
      if IsNumeric(x) && IsNumeric(y) && Value(x) == Value(y) { ValueInjective(x, y); }
    }
    LexTrichotomy(left, left, IdentifierPrecedes);
  }

  lemma IdentifiersTransitive(a: seq<string>, b: seq<string>, c: seq<string>)
    requires IdentifiersPrecede(a, b) && IdentifiersPrecede(b, c)
    ensures IdentifiersPrecede(a, c)
  {
    hide LexPrecedes, IdentifierPrecedes;
    forall x, y, z | x in a && y in b && z in c && IdentifierPrecedes(x, y) && IdentifierPrecedes(y, z)
      ensures x != z && IdentifierPrecedes(x, z)
    {
      IdentifierTransitive(x, y, z);
    }
    LexTransitive(a, b, c, IdentifierPrecedes);
  }

  lemma {:induction false} UnsplitOf(s: string)
    ensures Unsplit(Split(s)) == s
    decreases |s|
  {
    var i := IndexOf(s, '.');
    if i < |s| {
      UnsplitOf(s[i + 1..]);
      assert Split(s)[1..] == Split(s[i + 1..]);
      assert s == s[..i] + "." + s[i + 1..];
    }
  }

  lemma SplitInjective(a: string, b: string)
    requires Split(a) == Split(b)
    ensures a == b
  {
    UnsplitOf(a);
    UnsplitOf(b);
  }

  // ---------------------------------------------------------------- versions

  // What parseSemver guarantees.
  ghost predicate IsVersion(p: Parts) {
    p.prerelease.Some? ==> AreIdentifiers(Split(p.prerelease.value))
  }

  // Main result: the comparison is the precedence of SemVer 2.0.0, section 11.
  lemma ComparesByPrecedence(a: Parts, b: Parts)
    requires IsVersion(a) && IsVersion(b)
    ensures CompareParts(a, b) < 0 <==> Precedes(a, b)
    ensures CompareParts(a, b) == 0 <==> SamePrecedence(a, b)
    ensures CompareParts(a, b) > 0 <==> Precedes(b, a)
  {
    hide AreIdentifiers, LexPrecedes, CompareLists, Split;
    if a.prerelease.Some? && b.prerelease.Some? {
      var left, right := Split(a.prerelease.value), Split(b.prerelease.value);
      ListOrder(left, right);
      ListOrder(right, left);
      IdentifiersTotal(left, right);
      if left == right { SplitInjective(a.prerelease.value, b.prerelease.value); }
    }
  }

  lemma PrecedesTransitive(a: Parts, b: Parts, c: Parts)
    requires Precedes(a, b) && Precedes(b, c)
    ensures Precedes(a, c)
  {
    hide IdentifiersPrecede, Split;
    if a.prerelease.Some? && b.prerelease.Some? && c.prerelease.Some? {
      var x, y, z := Split(a.prerelease.value), Split(b.prerelease.value), Split(c.prerelease.value);
      if IdentifiersPrecede(x, y) && IdentifiersPrecede(y, z) { IdentifiersTransitive(x, y, z); }
    }
  }

  // ---------------------------------------------------------------- all strings

  // What localeCompare is relied on for.
  ghost predicate IsCollation(collate: (string, string) -> int) {
    && (forall a, b :: collate(a, b) < 0 <==> collate(b, a) > 0)
    && (forall a, b, c :: collate(a, b) <= 0 && collate(b, c) <= 0 ==> collate(a, c) <= 0)
  }

  lemma SomeCollation()
    ensures IsCollation((a, b) => |a| - |b|)
  {}

  lemma ParsedVersion(value: string)
    ensures ParseSemver(value).Some? ==> IsVersion(ParseSemver(value).value)
  {
    hide Number, Suffix, IsPrereleaseIdentifier, Trim, Split;
  }

  // Main result: what is no version comes before every version; two of them are collated, two versions compared by
  // precedence.
  lemma OrderOfAnyStrings(left: string, right: string, collate: (string, string) -> int)
    ensures var a, b, order := ParseSemver(left), ParseSemver(right), CompareStrings(left, right, collate);
      && (order < 0 <==>
            || (a.None? && b.Some?) || (a.None? && b.None? && collate(left, right) < 0)
            || (a.Some? && b.Some? && Precedes(a.value, b.value)))
      && (order > 0 <==>
            || (a.Some? && b.None?) || (a.None? && b.None? && collate(left, right) > 0)
            || (a.Some? && b.Some? && Precedes(b.value, a.value)))
      && (order == 0 <==>
            || (a.None? && b.None? && collate(left, right) == 0)
            || (a.Some? && b.Some? && SamePrecedence(a.value, b.value)))
  {
    hide ParseSemver, CompareParts, Precedes, SamePrecedence, IsVersion;
    ParsedVersion(left);
    ParsedVersion(right);
    var a, b := ParseSemver(left), ParseSemver(right);
    if a.Some? && b.Some? { ComparesByPrecedence(a.value, b.value); }
  }

  // A total preorder on all strings.
  lemma CompareAntisymmetric(a: string, b: string, collate: (string, string) -> int)
    requires IsCollation(collate)
    ensures CompareStrings(a, b, collate) < 0 <==> CompareStrings(b, a, collate) > 0
  {
    hide ParseSemver, CompareParts, Precedes, IsVersion;
    ParsedVersion(a);
    ParsedVersion(b);
    var x, y := ParseSemver(a), ParseSemver(b);
    if x.Some? && y.Some? {
      ComparesByPrecedence(x.value, y.value);
      ComparesByPrecedence(y.value, x.value);
    }
  }

  lemma CompareTransitive(a: string, b: string, c: string, collate: (string, string) -> int)
    requires IsCollation(collate) && CompareStrings(a, b, collate) <= 0 && CompareStrings(b, c, collate) <= 0
    ensures CompareStrings(a, c, collate) <= 0
  {
    hide ParseSemver, CompareParts, Precedes, IsVersion;
    ParsedVersion(a);
    ParsedVersion(b);
    ParsedVersion(c);
    var x, y, z := ParseSemver(a), ParseSemver(b), ParseSemver(c);
    if x.Some? && y.Some? && z.Some? { PartsTransitive(x.value, y.value, z.value); }
  }

  lemma PartsTransitive(x: Parts, y: Parts, z: Parts)
    requires IsVersion(x) && IsVersion(y) && IsVersion(z) && CompareParts(x, y) <= 0 && CompareParts(y, z) <= 0
    ensures CompareParts(x, z) <= 0
  {
    hide CompareParts, Precedes, IsVersion;
    ComparesByPrecedence(x, y);
    ComparesByPrecedence(y, z);
    ComparesByPrecedence(x, z);
    if Precedes(x, y) && Precedes(y, z) {
      PrecedesTransitive(x, y, z);
    } else if Precedes(x, y) {
      SameOnRight(x, y, z);
    } else if Precedes(y, z) {
      SameOnLeft(x, y, z);
    }
  }

  lemma SameOnRight(x: Parts, y: Parts, z: Parts)
    requires Precedes(x, y) && SamePrecedence(y, z)
    ensures Precedes(x, z)
  {}

  lemma SameOnLeft(x: Parts, y: Parts, z: Parts)
    requires SamePrecedence(x, y) && Precedes(y, z)
    ensures Precedes(x, z)
  {}

  // Main result: how far behind. Zero exactly when not behind, or behind by the prerelease alone.
  lemma OffsetMeansBehind(current: string, latest: string, collate: (string, string) -> int)
    ensures var n, a, b := SemverOffsetRecent(current, latest, collate), ParseSemver(current), ParseSemver(latest);
      && n >= 0 && (a.None? || b.None? ==> n <= 1)
      && (n == 0 <==>
            || CompareStrings(current, latest, collate) >= 0
            || (a.Some? && b.Some? && (a.value.major, a.value.minor, a.value.patch)
                                   == (b.value.major, b.value.minor, b.value.patch)))
      && (a.Some? && b.Some? && Precedes(a.value, b.value) ==>
            && n >= b.value.major - a.value.major && n >= b.value.minor - a.value.minor
            && n >= b.value.patch - a.value.patch
            && n in {b.value.major - a.value.major, b.value.minor - a.value.minor, b.value.patch - a.value.patch})
  {
    hide ParseSemver, IsVersion, CompareLists, Split, IdentifiersPrecede;
    ParsedVersion(current);
    ParsedVersion(latest);
    var a, b := ParseSemver(current), ParseSemver(latest);
    if a.Some? && b.Some? { ComparesByPrecedence(a.value, b.value); }
  }
}
