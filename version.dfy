/**
 * `parse_version_number` from antminer/utils.py: turns any firmware version
 * string into a `major.minor.patch` triple and never fails.
 *
 * The string is split on '.', each segment keeps only its digits, segments
 * without digits are dropped (later segments move up), the list of kept
 * parts is cut or padded with "0" to three, and the result is handed to the
 * semantic-version constructor; every failure falls back to 0.0.0.
 */
module VersionParse {
  import opened Text

  datatype Version = Version(major: nat, minor: nat, patch: nat)

  const Zero := Version(0, 0, 0)

  // ---------------------------------------------------------------------
  // Decimal numerals
  // ---------------------------------------------------------------------

  /** A non-empty run of ASCII digits: what one kept segment looks like. */
  predicate Numeral(s: string) {
    s != [] && AllDigits(s)
  }

  /** Semantic Versioning 2.0.0, item 2: a numeric identifier other than
      "0" must not start with '0'. */
  predicate HasLeadingZero(s: string) {
    |s| > 1 && s[0] == '0'
  }

  predicate Canonical(s: string) {
    Numeral(s) && !HasLeadingZero(s)
  }

  function DigitValue(c: char): nat
    requires IsDigit(c)
  {
    c as int - '0' as int
  }

  function DigitChar(d: nat): (c: char)
    requires d < 10
    ensures IsDigit(c) && DigitValue(c) == d
  {
    ('0' as int + d) as char
  }

  function Pow10(n: nat): nat {
    if n == 0 then 1 else 10 * Pow10(n - 1)
  }

  /** `int(s)` for a string of ASCII digits; leading zeros are allowed. An
      n-digit numeral is below 10^n, and one that does not start with '0'
      is at least 1. */
  function Value(s: string): (r: nat)
    requires AllDigits(s)
    ensures r < Pow10(|s|)
    ensures s != [] && s[0] != '0' ==> r >= 1
  {
    if s == [] then 0 else 10 * Value(s[..|s| - 1]) + DigitValue(s[|s| - 1])
  }

  /** `str(n)`: the decimal numeral of `n`, which reads back as `n`. */
  function Decimal(n: nat): (r: string)
    ensures Canonical(r) && Value(r) == n
  {
    if n < 10 then [DigitChar(n)]
    else
      var r := Decimal(n / 10) + [DigitChar(n % 10)];
      assert r[..|r| - 1] == Decimal(n / 10);
      r
  }

  // ---------------------------------------------------------------------
  // The semantic-version constructor
  // ---------------------------------------------------------------------

  /** `str(Version)`: "major.minor.patch". */
  function Format(v: Version): string {
    Join([Decimal(v.major), Decimal(v.minor), Decimal(v.patch)], '.')
  }

  /** A numeral without a leading zero is the decimal form of its value. */
  lemma {:induction false} DecimalOfValue(s: string)
    requires Canonical(s)
    ensures Decimal(Value(s)) == s
  {
    if |s| > 1 {
      var init := s[..|s| - 1];
      assert init[0] == s[0] && Canonical(init);
      DecimalOfValue(init);
      var n := Value(s);
      assert n / 10 == Value(init) && n % 10 == DigitValue(s[|s| - 1]);
      assert DigitChar(n % 10) == s[|s| - 1];
      assert s == init + [s[|s| - 1]];
    } else {
      assert DigitChar(Value(s)) == s[0];
    }
  }

  /** `semantic_version.Version(v)` on the strings this parser builds:
      exactly three dot-separated numeric identifiers, none with a leading
      zero; anything else is rejected (the library raises ValueError). */
  function LibraryVersion(v: string): Option<Version> {
    var ids := Split(v, '.');
    if |ids| == 3 && Canonical(ids[0]) && Canonical(ids[1]) && Canonical(ids[2])
    then Some(Version(Value(ids[0]), Value(ids[1]), Value(ids[2])))
    else None
  }

  /** A string the constructor accepts is exactly the printed form of the
      version it returns: nothing is lost or normalised away. */
  lemma LibraryVersionCanonical(v: string)
    ensures LibraryVersion(v).Some? ==> Format(LibraryVersion(v).value) == v
  {
    var ids := Split(v, '.');
    if LibraryVersion(v).Some? {
      DecimalOfValue(ids[0]);
      DecimalOfValue(ids[1]);
      DecimalOfValue(ids[2]);
      JoinSplit(v, '.');
      assert ids == [ids[0], ids[1], ids[2]];
    }
  }

  lemma NumeralHasNoDot(s: string)
    requires AllDigits(s)
    ensures '.' !in s
  {
  }

  /** The constructor accepts three numerals exactly when none has a
      leading zero, and then keeps their values in order. */
  lemma LibraryVersionOfNumerals(a: string, b: string, c: string)
    requires Numeral(a) && Numeral(b) && Numeral(c)
    ensures LibraryVersion(Join([a, b, c], '.')) ==
      if Canonical(a) && Canonical(b) && Canonical(c)
      then Some(Version(Value(a), Value(b), Value(c)))
      else None
  {
    NumeralHasNoDot(a);
    NumeralHasNoDot(b);
    NumeralHasNoDot(c);
    SplitJoin([a, b, c], '.');
  }

  /** The constructor reads back every version it prints. */
  lemma LibraryVersionOfFormat(v: Version)
    ensures LibraryVersion(Format(v)) == Some(v)
  {
    LibraryVersionOfNumerals(Decimal(v.major), Decimal(v.minor), Decimal(v.patch));
  }

  // ---------------------------------------------------------------------
  // Segment filtering and arity
  // ---------------------------------------------------------------------

  /** The digits of one segment, as a list of zero or one kept parts. */
  function Kept(segment: string): (r: seq<string>)
    ensures r == [] <==> NoDigit(segment)
  {
    var d := Digits(segment);
    if d == [] then [] else [d]
  }

  /** The `numeric_parts` list that the loop over the segments builds. */
  function NumericParts(segments: seq<string>): (r: seq<string>)
    ensures |r| <= |segments|
    ensures forall k :: 0 <= k < |r| ==> Numeral(r[k])
  {
    if segments == [] then [] else Kept(segments[0]) + NumericParts(segments[1..])
  }

  /** Filtering works segment by segment and keeps the order: the parts of
      a concatenation are the parts of each half, one after the other. */
  lemma {:induction false} NumericPartsAppend(a: seq<string>, b: seq<string>)
    ensures NumericParts(a + b) == NumericParts(a) + NumericParts(b)
  {
    if a == [] {
      assert a + b == b;
    } else {
      assert (a + b)[0] == a[0] && (a + b)[1..] == a[1..] + b;
      NumericPartsAppend(a[1..], b);
    }
  }

  /** A list of segments that are already numerals is kept as it is. */
  lemma {:induction false} NumericPartsOfNumerals(segments: seq<string>)
    requires forall k :: 0 <= k < |segments| ==> Numeral(segments[k])
    ensures NumericParts(segments) == segments
  {
    if segments != [] {
      NumericPartsOfNumerals(segments[1..]);
    }
  }

  /** Nothing is kept exactly when no segment holds a digit; a segment
      without digits is dropped, never replaced by a zero. */
  lemma {:induction false} NumericPartsEmpty(segments: seq<string>)
    ensures NumericParts(segments) == [] <==>
      forall k :: 0 <= k < |segments| ==> NoDigit(segments[k])
  {
    if segments != [] {
      NumericPartsEmpty(segments[1..]);
      assert forall k :: 1 <= k < |segments| ==> segments[k] == segments[1..][k - 1];
    }
  }

  /** Cut or pad with "0" to exactly three parts. */
  function FixArity(parts: seq<string>): seq<string>
    requires |parts| >= 1
  {
    (parts + ["0", "0"])[..3]
  }

  /** The version string assembled from the kept parts, one branch per
      count as in the source; it is always the dot-join of the parts cut
      or padded to three. */
  function Assemble(parts: seq<string>): (v: string)
    requires |parts| >= 1
    ensures v == Join(FixArity(parts), '.')
  {
    if |parts| == 3 then
      assert FixArity(parts) == parts;
      Join(parts, '.')
    else if |parts| == 2 then
      assert FixArity(parts) == [parts[0], parts[1], "0"];
      assert parts == [parts[0], parts[1]];
      JoinSmall(parts[0], parts[1], "0", '.');
      Join(parts, '.') + ".0"
    else if |parts| > 3 then
      assert FixArity(parts) == parts[..3];
      Join(parts[..3], '.')
    else
      assert FixArity(parts) == [parts[0], "0", "0"];
      JoinSmall(parts[0], "0", "0", '.');
      parts[0] + ".0.0"
  }

  /** An input without any digit leaves no kept part. */
  lemma NoDigitKeepsNothing(s: string)
    ensures NoDigit(s) ==> NumericParts(Split(s, '.')) == []
  {
    if !NoDigit(s) {
      return;
    }
    var segments := Split(s, '.');
    forall k | 0 <= k < |segments|
      ensures NoDigit(segments[k])
    {
      forall j | 0 <= j < |segments[k]|
        ensures !IsDigit(segments[k][j])
      {
        SplitChars(s, '.', k, j);
      }
    }
    NumericPartsEmpty(segments);
  }

  // ---------------------------------------------------------------------
  // The normaliser
  // ---------------------------------------------------------------------

  /** What `parse_version_number` returns; `None` stands for Python's None.
      A result other than 0.0.0 needs a digit somewhere in the input. */
  function Normalize(version: Option<string>): (r: Version)
    ensures r != Zero ==> version.Some? && !NoDigit(version.value)
  {
    if version.None? || version.value == [] then Zero
    else
      NoDigitKeepsNothing(version.value);
      var parts := NumericParts(Split(version.value, '.'));
      if parts == [] then Zero
      else
        match LibraryVersion(Assemble(parts))
        case Some(v) => v
        case None => Zero
  }

  lemma KeepOneMore(segments: seq<string>, i: nat)
    requires i < |segments|
    ensures NumericParts(segments[..i + 1]) == NumericParts(segments[..i]) + Kept(segments[i])
  {
    assert segments[..i + 1] == segments[..i] + [segments[i]];
    NumericPartsAppend(segments[..i], [segments[i]]);
    assert [segments[i]][1..] == [];
  }

  /** `parse_version_number`, with the loop that collects `numeric_parts`. */
  method ParseVersionNumber(version: Option<string>) returns (r: Version)
    ensures r == Normalize(version)
  {
    if version.None? || version.value == [] {
      return Zero;
    }
    var segments := Split(version.value, '.');
    var numericParts: seq<string> := [];
    for i := 0 to |segments|
      invariant numericParts == NumericParts(segments[..i])
    {
      var numericPart := Digits(segments[i]);
      if numericPart != [] {
        numericParts := numericParts + [numericPart];
      }
      KeepOneMore(segments, i);
    }
    assert segments[..|segments|] == segments;
    if numericParts == [] {
      return Zero;
    }
    var v := Assemble(numericParts);
    match LibraryVersion(v) {
      case Some(x) => r := x;
      case None => r := Zero;
    }
  }

  /** The triple built from three kept parts: their values when none has a
      leading zero, 0.0.0 otherwise. */
  function Triple(a: string, b: string, c: string): Version
    requires Numeral(a) && Numeral(b) && Numeral(c)
  {
    if Canonical(a) && Canonical(b) && Canonical(c)
    then Version(Value(a), Value(b), Value(c))
    else Zero
  }

  lemma TripleRejectsLeadingZero(a: string, b: string, c: string, x: string)
    requires Numeral(a) && Numeral(b) && Numeral(c)
    requires x in [a, b, c] && HasLeadingZero(x)
    ensures Triple(a, b, c) == Zero
  {
  }

  /** Any input with at least one kept part: the result is the triple of
      the parts cut or padded to three. */
  lemma NormalizeKeptParts(s: string, parts: seq<string>)
    requires parts == NumericParts(Split(s, '.')) && parts != []
    ensures Normalize(Some(s)) == Triple(FixArity(parts)[0], FixArity(parts)[1], FixArity(parts)[2])
  {
    var t := FixArity(parts);
    LibraryVersionOfNumerals(t[0], t[1], t[2]);
    assert t == [t[0], t[1], t[2]];
  }

  /** An empty or missing input gives 0.0.0. */
  lemma NormalizeEmpty()
    ensures Normalize(None) == Zero && Normalize(Some("")) == Zero
  {
  }

  /** An input without any digit, such as "abc", gives 0.0.0. */
  lemma NormalizeNoDigits(s: string)
    requires NoDigit(s)
    ensures Normalize(Some(s)) == Zero
  {
    NoDigitKeepsNothing(s);
  }

  /** Three kept parts are major, minor and patch, in order. */
  lemma NormalizeThreeParts(s: string, parts: seq<string>)
    requires parts == NumericParts(Split(s, '.')) && |parts| == 3
    ensures Normalize(Some(s)) ==
      if Canonical(parts[0]) && Canonical(parts[1]) && Canonical(parts[2])
      then Version(Value(parts[0]), Value(parts[1]), Value(parts[2]))
      else Zero
  {
    NormalizeKeptParts(s, parts);
  }

  /** Two kept parts are major and minor; patch is 0. */
  lemma NormalizeTwoParts(s: string, parts: seq<string>)
    requires parts == NumericParts(Split(s, '.')) && |parts| == 2
    ensures Normalize(Some(s)) ==
      if Canonical(parts[0]) && Canonical(parts[1])
      then Version(Value(parts[0]), Value(parts[1]), 0)
      else Zero
  {
    NormalizeKeptParts(s, parts);
    assert Value("0") == 0;
  }

  /** More than three kept parts: only the first three count. */
  lemma NormalizeMoreThanThreeParts(s: string, parts: seq<string>)
    requires parts == NumericParts(Split(s, '.')) && |parts| > 3
    ensures Normalize(Some(s)) ==
      if Canonical(parts[0]) && Canonical(parts[1]) && Canonical(parts[2])
      then Version(Value(parts[0]), Value(parts[1]), Value(parts[2]))
      else Zero
  {
    NormalizeKeptParts(s, parts);
  }

  /** One kept part is the major number, wherever it stood in the input;
      minor and patch are 0. */
  lemma NormalizeOnePart(s: string, parts: seq<string>)
    requires parts == NumericParts(Split(s, '.')) && |parts| == 1
    ensures Normalize(Some(s)) ==
      if Canonical(parts[0]) then Version(Value(parts[0]), 0, 0) else Zero
  {
    NormalizeKeptParts(s, parts);
    assert Value("0") == 0;
  }

  /** Once three parts are kept, whatever follows another '.' is ignored. */
  lemma NormalizeIgnoresTrailingSegments(s: string, extra: string)
    requires |NumericParts(Split(s, '.'))| >= 3
    ensures Normalize(Some(s + "." + extra)) == Normalize(Some(s))
  {
    var parts := NumericParts(Split(s, '.'));
    SplitConcat(s, extra, '.');
    NumericPartsAppend(Split(s, '.'), Split(extra, '.'));
    var longer := parts + NumericParts(Split(extra, '.'));
    assert FixArity(longer) == FixArity(parts);
    NormalizeKeptParts(s + "." + extra, longer);
    NormalizeKeptParts(s, parts);
  }

  /** A kept part with a leading zero among the first three makes the
      constructor fail, and the failure becomes 0.0.0. */
  lemma NormalizeLeadingZero(s: string, parts: seq<string>, k: nat)
    requires parts == NumericParts(Split(s, '.'))
    requires k < |parts| && k < 3 && HasLeadingZero(parts[k])
    ensures Normalize(Some(s)) == Zero
  {
    var t := FixArity(parts);
    assert t[k] == parts[k];
    TripleRejectsLeadingZero(t[0], t[1], t[2], t[k]);
    NormalizeKeptParts(s, parts);
  }

  /** Printing a version and parsing it again gives the same version. */
  lemma NormalizeFormat(v: Version)
    ensures Normalize(Some(Format(v))) == v
  {
    var ids := [Decimal(v.major), Decimal(v.minor), Decimal(v.patch)];
    NumeralHasNoDot(ids[0]);
    NumeralHasNoDot(ids[1]);
    NumeralHasNoDot(ids[2]);
    SplitJoin(ids, '.');
    NumericPartsOfNumerals(ids);
    NormalizeThreeParts(Format(v), ids);
  }

  lemma ShiftedParts(s: string)
    requires Split(s, '.') == ["a", "2", "3"]
    ensures Normalize(Some(s)) == Version(2, 3, 0)
  {
    var segments := ["a", "2", "3"];
    assert Kept("a") == [] && Kept("2") == ["2"] && Kept("3") == ["3"];
    assert NumericParts(segments) == ["2", "3"] by {
      assert segments[1..] == ["2", "3"] && segments[1..][1..] == ["3"];
      assert segments[1..][1..][1..] == [];
    }
    NormalizeTwoParts(s, ["2", "3"]);
    assert Value("2") == 2 && Value("3") == 3;
  }

  /** A segment without digits in front is dropped and the kept parts move
      up: "a.2.3" keeps two parts and gives 2.3.0, not 0.2.3. */
  lemma NormalizeShiftsAfterDroppedSegment()
    ensures Normalize(Some("a.2.3")) == Version(2, 3, 0)
  {
    var segments := ["a", "2", "3"];
    JoinSmall("a", "2", "3", '.');
    assert Join(segments, '.') == "a.2.3";
    SplitJoin(segments, '.');
    ShiftedParts("a.2.3");
  }

  lemma PrefixedParts(s: string)
    requires Split(s, '.') == ["v1", "2", "3"]
    ensures Normalize(Some(s)) == Version(1, 2, 3)
  {
    var segments := ["v1", "2", "3"];
    assert Digits("v1") == "1";
    assert Kept("v1") == ["1"] && Kept("2") == ["2"] && Kept("3") == ["3"];
    assert NumericParts(segments) == ["1", "2", "3"] by {
      assert segments[1..] == ["2", "3"] && segments[1..][1..] == ["3"];
      assert segments[1..][1..][1..] == [];
    }
    NormalizeThreeParts(s, ["1", "2", "3"]);
    assert Value("1") == 1 && Value("2") == 2 && Value("3") == 3;
  }

  /** Letters inside a segment are discarded and its digits kept:
      "v1.2.3" gives 1.2.3. */
  lemma NormalizeStripsLetters()
    ensures Normalize(Some("v1.2.3")) == Version(1, 2, 3)
  {
    var segments := ["v1", "2", "3"];
    JoinSmall("v1", "2", "3", '.');
    assert Join(segments, '.') == "v1.2.3";
    SplitJoin(segments, '.');
    PrefixedParts("v1.2.3");
  }
}
