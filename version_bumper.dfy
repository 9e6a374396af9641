/**
  The version bumper of the `tag` command: validating the bump type,
  computing the next version record from the current one, rendering it as a
  dotted version and as the fixed-format `.semver` document.
 */
module VersionBumper {
  import opened Wrappers
  import opened Decimal
  import opened Text

  datatype BumpType = Major | Minor | Patch | Dev

  /** The type arguments the command accepts. */
  const AllowedTypes: seq<string> := ["major", "minor", "patch", "dev"]

  function TypeName(t: BumpType): string {
    match t
    case Major => "major"
    case Minor => "minor"
    case Patch => "patch"
    case Dev => "dev"
  }

  /** The allowed types are exactly the names of the four bump types. */
  lemma AllowedTypesNamed()
    ensures |AllowedTypes| == 4
    ensures forall s :: s in AllowedTypes <==> exists t :: TypeName(t) == s
  {
    forall s | s in AllowedTypes ensures exists t :: TypeName(t) == s {
      if s == "major" { assert TypeName(Major) == s; }
      else if s == "minor" { assert TypeName(Minor) == s; }
      else if s == "patch" { assert TypeName(Patch) == s; }
      else { assert TypeName(Dev) == s; }
    }
  }

  /** `validateOptions`: any argument outside the allowed types is rejected. */
  function ValidateType(arg: string): (r: Option<BumpType>)
    ensures r.Some? <==> arg in AllowedTypes
    ensures r.Some? ==> TypeName(r.value) == arg
    ensures forall t :: TypeName(t) == arg ==> r == Some(t)
  {
    if arg == "major" then Some(Major)
    else if arg == "minor" then Some(Minor)
    else if arg == "patch" then Some(Patch)
    else if arg == "dev" then Some(Dev)
    else None
  }

  /** The contents of the `.semver` file. */
  datatype VersionRecord = VersionRecord(major: nat, minor: nat, patch: nat, special: string, metadata: string)

  /** PHP's `empty()` on a string: the empty string and "0". */
  predicate PhpEmpty(s: string) {
    s == "" || s == "0"
  }

  /** A command option that may be null, with "" for null. */
  function OrEmpty(o: Option<string>): string {
    if o.None? then "" else o.value
  }

  /** `makeVersion`: a null pre-release or metadata becomes "". */
  function MakeVersion(major: nat, minor: nat, patch: nat, special: Option<string>, metadata: Option<string>): (r: VersionRecord)
    ensures r.major == major && r.minor == minor && r.patch == patch
    ensures special.None? ==> r.special == ""
    ensures special.Some? ==> r.special == special.value
    ensures metadata.None? ==> r.metadata == ""
    ensures metadata.Some? ==> r.metadata == metadata.value
  {
    VersionRecord(major, minor, patch, OrEmpty(special), OrEmpty(metadata))
  }

  /** The metadata of a `dev` bump: "develop", after the given metadata when that is not empty. */
  function DevMetadata(meta: Option<string>): (m: string)
    ensures meta.None? || PhpEmpty(meta.value) ==> m == "develop"
    ensures meta.Some? && !PhpEmpty(meta.value) ==> m == meta.value + ".develop"
    ensures |m| >= 7 && m[|m| - 7..] == "develop"
  {
    if meta.None? || PhpEmpty(meta.value) then "develop" else meta.value + ".develop"
  }

  /** The numbers (major, minor, patch) of `a` come before those of `b` in lexicographic order. */
  predicate NumbersBefore(a: VersionRecord, b: VersionRecord) {
    || a.major < b.major
    || (a.major == b.major && a.minor < b.minor)
    || (a.major == b.major && a.minor == b.minor && a.patch < b.patch)
  }

  predicate SameNumbers(a: VersionRecord, b: VersionRecord) {
    a.major == b.major && a.minor == b.minor && a.patch == b.patch
  }

  /**
    `targetVersion`: the next version. The current pre-release and metadata
    are dropped; the new ones come from the options.
   */
  function TargetVersion(current: VersionRecord, t: BumpType, pre: Option<string>, meta: Option<string>): (r: VersionRecord)
    ensures t == Major ==> r.major == current.major + 1 && r.minor == 0 && r.patch == 0
    ensures t == Minor ==> r.major == current.major && r.minor == current.minor + 1 && r.patch == 0
    ensures t == Patch ==> SameNumbers(r, current.(patch := current.patch + 1))
    ensures t == Dev ==> SameNumbers(r, current)
    ensures t != Dev <==> NumbersBefore(current, r)
    ensures r.special == OrEmpty(pre)
    ensures r.metadata == if t == Dev then DevMetadata(meta) else OrEmpty(meta)
  {
    match t
    case Major => MakeVersion(current.major + 1, 0, 0, pre, meta)
    case Minor => MakeVersion(current.major, current.minor + 1, 0, pre, meta)
    case Patch => MakeVersion(current.major, current.minor, current.patch + 1, pre, meta)
    case Dev => MakeVersion(current.major, current.minor, current.patch, pre, Some(DevMetadata(meta)))
  }

  /** Options without a line feed give a target whose text fields have none either. */
  lemma TargetVersionSingleLine(current: VersionRecord, t: BumpType, pre: Option<string>, meta: Option<string>)
    requires '\n' !in OrEmpty(pre) && '\n' !in OrEmpty(meta)
    ensures var r := TargetVersion(current, t, pre, meta); '\n' !in r.special && '\n' !in r.metadata
  {
    var suffix := ".develop";
    assert forall i :: 0 <= i < |suffix| ==> suffix[i] != '\n';
    assert '\n' !in suffix && '\n' !in suffix[1..];
    if t == Dev && meta.Some? && !PhpEmpty(meta.value) {
      assert DevMetadata(meta) == meta.value + suffix;
    }
  }

  /** "M.m.p", the three numbers in decimal. */
  function NumbersText(v: VersionRecord): string {
    NatToDecimal(v.major) + "." + NatToDecimal(v.minor) + "." + NatToDecimal(v.patch)
  }

  /** `dottedVersion`: "M.m.p", then "-special" and "+metadata" for those that are not empty. */
  function Dotted(v: VersionRecord): string {
    var dotted := NumbersText(v);
    var dotted := if !PhpEmpty(v.special) then dotted + "-" + v.special else dotted;
    if !PhpEmpty(v.metadata) then dotted + "+" + v.metadata else dotted
  }

  /** The record as its dotted form shows it: a pre-release or metadata of "0" is not shown. */
  function Shown(v: VersionRecord): VersionRecord {
    v.(special := if PhpEmpty(v.special) then "" else v.special,
       metadata := if PhpEmpty(v.metadata) then "" else v.metadata)
  }

  /** Splits what follows "M.m.p" into pre-release and metadata. */
  function ParseSuffix(rest: string): Option<(string, string)> {
    if rest == [] then Some(("", ""))
    else if rest[0] == '+' then Some(("", rest[1..]))
    else if rest[0] == '-' then
      var t := rest[1..];
      var k := IndexOf(t, '+');
      if k == |t| then Some((t, "")) else Some((t[..k], t[k + 1..]))
    else None
  }

  /** Reads a dotted version back into a record. */
  function ParseDotted(s: string): Option<VersionRecord> {
    var a := LeadingDigits(s);
    if a == 0 || a == |s| || s[a] != '.' then None
    else
      var s1 := s[a + 1..];
      var b := LeadingDigits(s1);
      if b == 0 || b == |s1| || s1[b] != '.' then None
      else
        var s2 := s1[b + 1..];
        var c := LeadingDigits(s2);
        if c == 0 then None
        else
          match ParseSuffix(s2[c..])
          case None => None
          case Some((special, metadata)) =>
            Some(VersionRecord(DecimalToNat(s[..a]), DecimalToNat(s1[..b]), DecimalToNat(s2[..c]), special, metadata))
  }

  /** What follows "M.m.p" in the dotted form. */
  function Suffix(v: VersionRecord): string {
    (if !PhpEmpty(v.special) then "-" + v.special else "") + (if !PhpEmpty(v.metadata) then "+" + v.metadata else "")
  }

  lemma DottedSplits(v: VersionRecord)
    ensures Dotted(v) == NumbersText(v) + Suffix(v)
  {
  }

  lemma {:induction false} SuffixRoundTrip(v: VersionRecord)
    requires '+' !in v.special
    ensures ParseSuffix(Suffix(v)) == Some((Shown(v).special, Shown(v).metadata))
  {
    var sp, md := v.special, v.metadata;
    var rest := Suffix(v);
    if PhpEmpty(sp) {
      if !PhpEmpty(md) {
        assert rest[0] == '+' && rest[1..] == md;
      }
    } else {
      assert rest[0] == '-';
      assert rest[1..] == sp + (if !PhpEmpty(md) then "+" + md else "");
      if !PhpEmpty(md) {
        IndexOfAfter(sp, '+', md);
        assert rest[1..] == sp + ['+'] + md;
      } else {
        assert rest[1..] == sp;
        IndexOfAbsent(sp, '+');
      }
    }
  }

  /** A digit run followed by a dot: the run is read whole and the dot follows. */
  lemma ReadDigitRun(d: string, r: string)
    requires |d| > 0 && AllDigits(d) && |r| > 0 && r[0] == '.'
    ensures var s := d + r;
      LeadingDigits(s) == |d| && s[..|d|] == d && s[|d|] == '.' && s[|d| + 1..] == r[1..]
  {
    LeadingDigitsOfConcat(d, r);
    var s := d + r;
    assert s[..|d|] == d;
    assert s[|d| + 1..] == r[1..];
  }

  /** Parsing three digit runs separated by dots, then a suffix. */
  lemma ParseDottedParts(d1: string, d2: string, d3: string, rest: string)
    requires |d1| > 0 && |d2| > 0 && |d3| > 0 && AllDigits(d1) && AllDigits(d2) && AllDigits(d3)
    requires rest == [] || !IsDigit(rest[0])
    requires ParseSuffix(rest).Some?
    ensures ParseDotted(d1 + ("." + (d2 + ("." + (d3 + rest)))))
      == Some(VersionRecord(DecimalToNat(d1), DecimalToNat(d2), DecimalToNat(d3),
                            ParseSuffix(rest).value.0, ParseSuffix(rest).value.1))
  {
    var r2 := "." + (d3 + rest);
    var r1 := "." + (d2 + r2);
    ReadDigitRun(d1, r1);
    assert r1[1..] == d2 + r2;
    ReadDigitRun(d2, r2);
    assert r2[1..] == d3 + rest;
    LeadingDigitsOfConcat(d3, rest);
    var s2 := d3 + rest;
    assert s2[..|d3|] == d3 && s2[|d3|..] == rest;
  }

  /**
    The dotted form can be read back: parsing it gives the record, up to a
    pre-release or metadata of "0", which the dotted form leaves out. This
    needs a pre-release without '+', since '+' starts the metadata.
   */
  lemma DottedRoundTrip(v: VersionRecord)
    requires '+' !in v.special
    ensures ParseDotted(Dotted(v)) == Some(Shown(v))
  {
    var d1, d2, d3 := NatToDecimal(v.major), NatToDecimal(v.minor), NatToDecimal(v.patch);
    DottedSplits(v);
    var suffix := Suffix(v);
    assert Dotted(v) == d1 + ("." + (d2 + ("." + (d3 + suffix))));
    assert suffix == [] || suffix[0] == '-' || suffix[0] == '+';
    SuffixRoundTrip(v);
    ParseDottedParts(d1, d2, d3, suffix);
    DecimalRoundTrip(v.major);
    DecimalRoundTrip(v.minor);
    DecimalRoundTrip(v.patch);
  }

  /** A dotted version starts with a digit, so it is never the label "develop". */
  lemma DottedStartsWithDigit(v: VersionRecord)
    ensures |Dotted(v)| > 0 && IsDigit(Dotted(v)[0])
  {
    DottedSplits(v);
    assert Dotted(v)[0] == NatToDecimal(v.major)[0];
  }

  /** A line ended by a line feed (PHP_EOL). */
  function Line(s: string): string {
    s + "\n"
  }

  /** The string-building part of `saveVersion`. */
  function SemverDocument(v: VersionRecord): string {
    Line("---")
    + Line(":major: " + NatToDecimal(v.major))
    + Line(":minor: " + NatToDecimal(v.minor))
    + Line(":patch: " + NatToDecimal(v.patch))
    + Line(":special: '" + v.special + "'")
    + Line(":metadata: '" + v.metadata + "'")
  }

  /** The six lines of the `.semver` document, in order. */
  function SemverLines(v: VersionRecord): seq<string> {
    [ "---",
      ":major: " + NatToDecimal(v.major),
      ":minor: " + NatToDecimal(v.minor),
      ":patch: " + NatToDecimal(v.patch),
      ":special: '" + v.special + "'",
      ":metadata: '" + v.metadata + "'" ]
  }

  lemma DigitsHaveNoLineFeed(s: string)
    requires AllDigits(s)
    ensures '\n' !in s
  {
    assert forall i :: 0 <= i < |s| ==> s[i] != '\n';
  }

  /** Lines joined, each ended by a line feed. */
  function Terminated(lines: seq<string>): string {
    if lines == [] then "" else Line(lines[0]) + Terminated(lines[1..])
  }

  lemma {:induction false} SplitTerminated(lines: seq<string>)
    requires forall i :: 0 <= i < |lines| ==> '\n' !in lines[i]
    ensures SplitLines(Terminated(lines)) == lines
  {
    if lines != [] {
      SplitTerminated(lines[1..]);
      SplitLinesCons(lines[0], Terminated(lines[1..]));
      assert Line(lines[0]) + Terminated(lines[1..]) == lines[0] + "\n" + Terminated(lines[1..]);
    }
  }

  lemma SemverDocumentTerminated(v: VersionRecord)
    ensures SemverDocument(v) == Terminated(SemverLines(v))
  {
    var ls := SemverLines(v);
    assert ls[5..][1..] == [];
    assert ls[4..][1..] == ls[5..];
    assert ls[3..][1..] == ls[4..];
    assert ls[2..][1..] == ls[3..];
    assert ls[1..][1..] == ls[2..];
    assert Terminated(ls[5..]) == Line(ls[5]);
    assert Terminated(ls[4..]) == Line(ls[4]) + Terminated(ls[5..]);
    assert Terminated(ls[3..]) == Line(ls[3]) + Terminated(ls[4..]);
    assert Terminated(ls[2..]) == Line(ls[2]) + Terminated(ls[3..]);
    assert Terminated(ls[1..]) == Line(ls[1]) + Terminated(ls[2..]);
  }

  lemma SemverLinesHaveNoLineFeed(v: VersionRecord)
    requires '\n' !in v.special && '\n' !in v.metadata
    ensures forall i :: 0 <= i < |SemverLines(v)| ==> '\n' !in SemverLines(v)[i]
  {
    DigitsHaveNoLineFeed(NatToDecimal(v.major));
    DigitsHaveNoLineFeed(NatToDecimal(v.minor));
    DigitsHaveNoLineFeed(NatToDecimal(v.patch));
  }

  /**
    The document is exactly the six lines, each ended by a line feed, when
    neither the pre-release nor the metadata holds a line feed.
   */
  lemma SemverDocumentLines(v: VersionRecord)
    requires '\n' !in v.special && '\n' !in v.metadata
    ensures SemverDocument(v) == Terminated(SemverLines(v))
    ensures SplitLines(SemverDocument(v)) == SemverLines(v)
  {
    SemverDocumentTerminated(v);
    SemverLinesHaveNoLineFeed(v);
    SplitTerminated(SemverLines(v));
  }

  /** The number after `key` on a line. */
  function ReadNatField(line: string, key: string): Option<nat> {
    if |line| > |key| && line[..|key|] == key && AllDigits(line[|key|..])
    then Some(DecimalToNat(line[|key|..]))
    else None
  }

  /** The single-quoted text after `key` on a line. */
  function ReadQuotedField(line: string, key: string): Option<string> {
    if |line| >= |key| + 2 && line[..|key|] == key && line[|key|] == '\'' && line[|line| - 1] == '\''
    then Some(line[|key| + 1..|line| - 1])
    else None
  }

  /** Reads a document of the fixed `.semver` format back into a record. */
  function ReadSemverDocument(doc: string): Option<VersionRecord> {
    var ls := SplitLines(doc);
    if |ls| != 6 || ls[0] != "---" then None
    else
      match (ReadNatField(ls[1], ":major: "), ReadNatField(ls[2], ":minor: "), ReadNatField(ls[3], ":patch: "),
             ReadQuotedField(ls[4], ":special: "), ReadQuotedField(ls[5], ":metadata: "))
      case (Some(major), Some(minor), Some(patch), Some(special), Some(metadata)) =>
        Some(VersionRecord(major, minor, patch, special, metadata))
      case _ => None
  }

  lemma ReadNatFieldOf(key: string, n: nat)
    ensures ReadNatField(key + NatToDecimal(n), key) == Some(n)
  {
    var line := key + NatToDecimal(n);
    assert line[..|key|] == key && line[|key|..] == NatToDecimal(n);
    DecimalRoundTrip(n);
  }

  lemma ReadQuotedFieldOf(key: string, s: string)
    ensures ReadQuotedField(key + "'" + s + "'", key) == Some(s)
  {
    var line := key + "'" + s + "'";
    assert line[..|key|] == key && line[|key|] == '\'';
    assert line[|key| + 1..|line| - 1] == s;
  }

  /**
    Reading the written `.semver` document gives back the record it was
    written from, whenever the pre-release and metadata hold no line feed.
   */
  lemma SemverDocumentRoundTrip(v: VersionRecord)
    requires '\n' !in v.special && '\n' !in v.metadata
    ensures ReadSemverDocument(SemverDocument(v)) == Some(v)
  {
    SemverDocumentLines(v);
    var ls := SemverLines(v);
    ReadNatFieldOf(":major: ", v.major);
    ReadNatFieldOf(":minor: ", v.minor);
    ReadNatFieldOf(":patch: ", v.patch);
    ReadQuotedFieldOf(":special: ", v.special);
    ReadQuotedFieldOf(":metadata: ", v.metadata);
    assert ReadNatField(ls[1], ":major: ") == Some(v.major);
    assert ReadNatField(ls[2], ":minor: ") == Some(v.minor);
    assert ReadNatField(ls[3], ":patch: ") == Some(v.patch);
    assert ReadQuotedField(ls[4], ":special: ") == Some(v.special);
    assert ReadQuotedField(ls[5], ":metadata: ") == Some(v.metadata);
  }
}
