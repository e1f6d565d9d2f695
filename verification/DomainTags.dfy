/** Domain tags: the text that separates the hashes of different schemas and versions. */
module DomainTags {
  import opened Results
  import opened Values

  const MAX_SEGMENT_LENGTH := 256

  predicate IsLower(c: char) {
    'a' <= c <= 'z'
  }

  predicate IsUpper(c: char) {
    'A' <= c <= 'Z'
  }

  /** The characters of a tag segment; the first one is a letter or a digit. */
  predicate IsTagStart(c: char) {
    IsLower(c) || IsDigit(c)
  }

  predicate IsTagChar(c: char) {
    IsTagStart(c) || c == '_' || c == '-'
  }

  predicate IsSegment(s: string) {
    s != "" && IsTagStart(s[0]) && forall i :: 0 <= i < |s| ==> IsTagChar(s[i])
  }

  // ----- Validating -----

  datatype TagError = EmptyTag | TooFewSegments(n: nat) | EmptySegment(i: nat) | BadSegment(i: nat)

  predicate IsTag(tag: string) {
    |Split(tag, ':')| >= 3 && forall s :: s in Split(tag, ':') ==> IsSegment(s)
  }

  /** None means valid. An error is about the first bad segment. */
  method ValidateDomainTag(tag: string) returns (error: Option<TagError>)
    ensures error == None <==> IsTag(tag)
    ensures error == Some(EmptyTag) <==> tag == ""
    ensures error.Some? && error.value.TooFewSegments? <==> tag != "" && |Split(tag, ':')| < 3
    ensures error.Some? && (error.value.EmptySegment? || error.value.BadSegment?) ==>
              var segments := Split(tag, ':');
              && error.value.i < |segments| && !IsSegment(segments[error.value.i])
              && (error.value.EmptySegment? <==> segments[error.value.i] == "")
              && forall j :: 0 <= j < error.value.i ==> IsSegment(segments[j])
  {
    if tag == "" {
      return Some(EmptyTag);
    }
    var segments := Split(tag, ':');
    if |segments| < 3 {
      return Some(TooFewSegments(|segments|));
    }
    for i := 0 to |segments|
      invariant forall j :: 0 <= j < i ==> IsSegment(segments[j])
    {
      assert segments[i] in segments;
      if segments[i] == "" {
        return Some(EmptySegment(i));
      }
      if !IsSegment(segments[i]) {
        return Some(BadSegment(i));
      }
    }
    return None;
  }

  // ----- Building -----

  function Lower(c: char): char {
    if IsUpper(c) then (c as int + 32) as char else c
  }

  function ToLower(s: string): string {
    if s == "" then "" else [Lower(s[0])] + ToLower(s[1..])
  }

  /** `s` without the characters outside a class. */
  function Keep(s: string, keep: char -> bool): string {
    if s == "" then "" else (if keep(s[0]) then [s[0]] else "") + Keep(s[1..], keep)
  }

  function Hyphenate(s: string): string {
    if s == "" then "" else [if s[0] == '.' || s[0] == '+' then '-' else s[0]] + Hyphenate(s[1..])
  }

  predicate NotColon(c: char) {
    c != ':'
  }

  function Sanitize(s: string): string {
    Keep(Hyphenate(Keep(ToLower(s), NotColon)), IsTagChar)
  }

  predicate IsLetter(c: char) {
    IsLower(c) || IsUpper(c)
  }

  predicate IsSchemaId(s: string) {
    && s != "" && IsLetter(s[0])
    && forall i :: 0 <= i < |s| ==> IsLetter(s[i]) || IsDigit(s[i]) || s[i] in "._:-"
  }

  predicate IsVersion(s: string) {
    && s != "" && IsDigit(s[0])
    && forall i :: 0 <= i < |s| ==> IsLetter(s[i]) || IsDigit(s[i]) || s[i] in "._+-"
  }

  datatype BuildError = SchemaIdLength | SchemaIdGrammar | VersionLength | VersionGrammar

  function BuildDomainTag(schemaId: string, version: string): Result<string, BuildError> {
    if schemaId == "" || |schemaId| > MAX_SEGMENT_LENGTH then Failure(SchemaIdLength)
    else if !IsSchemaId(schemaId) then Failure(SchemaIdGrammar)
    else if version == "" || |version| > MAX_SEGMENT_LENGTH then Failure(VersionLength)
    else if !IsVersion(version) then Failure(VersionGrammar)
    else Success("loa-commons:audit:" + Sanitize(schemaId) + ":" + Sanitize(version))
  }

  /** What one character becomes: nothing, or one character of a tag. */
  function SanitizeChar(c: char): (r: string)
    ensures r == "" || (|r| == 1 && IsTagChar(r[0]))
  {
    var d := Lower(c);
    if d == '.' || d == '+' then "-" else if IsTagChar(d) then [d] else ""
  }

  /** Sanitizing works character by character. */
  lemma {:induction false} SanitizeStep(s: string)
    requires s != ""
    ensures Sanitize(s) == SanitizeChar(s[0]) + Sanitize(s[1..])
  {
    var d := Lower(s[0]);
    var lower := ToLower(s[1..]);
    var rest := Keep(lower, NotColon);
    assert ([d] + lower)[1..] == lower;
    if d == ':' {
      assert Keep(ToLower(s), NotColon) == rest;
    } else {
      assert Keep(ToLower(s), NotColon) == [d] + rest;
      assert ([d] + rest)[1..] == rest;
      var e := if d == '.' || d == '+' then '-' else d;
      assert Hyphenate([d] + rest) == [e] + Hyphenate(rest);
      assert ([e] + Hyphenate(rest))[1..] == Hyphenate(rest);
    }
  }

  lemma {:induction false} SanitizedChars(s: string)
    ensures forall i :: 0 <= i < |Sanitize(s)| ==> IsTagChar(Sanitize(s)[i])
  {
    hide Sanitize;
    if s == "" {
      assert Sanitize("") == "" by {
        SanitizeEmpty();
      }
    } else {
      SanitizedChars(s[1..]);
      SanitizeStep(s);
    }
  }

  lemma SanitizeEmpty()
    ensures Sanitize("") == ""
  {
  }

  lemma {:induction false} TagCharsStay(s: string)
    requires forall i :: 0 <= i < |s| ==> IsTagChar(s[i])
    ensures Sanitize(s) == s
  {
    hide Sanitize;
    if s == "" {
      SanitizeEmpty();
    } else {
      TagCharsStay(s[1..]);
      SanitizeStep(s);
      assert IsTagChar(s[0]);
    }
  }

  /** Sanitizing a second time changes nothing. */
  lemma SanitizeIsIdempotent(s: string)
    ensures Sanitize(Sanitize(s)) == Sanitize(s)
  {
    SanitizedChars(s);
    TagCharsStay(Sanitize(s));
  }

  lemma SanitizedSegment(s: string)
    requires s != "" && (IsLetter(s[0]) || IsDigit(s[0]))
    ensures IsSegment(Sanitize(s))
  {
    hide Sanitize;
    SanitizedChars(s);
    SanitizeStep(s);
  }

  /** A built tag has exactly four segments, all of them good, so it validates. */
  lemma BuiltTagsAreTags(schemaId: string, version: string)
    requires BuildDomainTag(schemaId, version).Success?
    ensures var tag := BuildDomainTag(schemaId, version).value;
            Split(tag, ':') == ["loa-commons", "audit", Sanitize(schemaId), Sanitize(version)] && IsTag(tag)
  {
    hide Sanitize, Split;
    var a, b := Sanitize(schemaId), Sanitize(version);
    SanitizedSegment(schemaId);
    SanitizedSegment(version);
    var parts := ["loa-commons", "audit", a, b];
    assert parts[3..] == [b] && parts[2..] == [a, b] && parts[1..] == ["audit", a, b];
    assert Join([a, b], ":") == a + ":" + b;
    assert Join(["audit", a, b], ":") == "audit" + ":" + (a + ":" + b);
    assert "loa-commons" + ":" + ("audit" + ":" + (a + ":" + b)) == "loa-commons:audit:" + a + ":" + b;
    forall p, i | p in parts && 0 <= i < |p| ensures p[i] != ':' {
      FixedSegments();
      assert IsSegment(p);
    }
    SplitJoin(parts, ':');
    FixedSegments();
  }

  lemma FixedSegments()
    ensures IsSegment("loa-commons") && IsSegment("audit")
  {
  }

  /** A tag holds no brace, so where canonical JSON of an object follows it, the two can be told apart. */
  lemma {:induction false} TagHasNoBrace(s: string, i: nat)
    requires i < |s| && forall p :: p in Split(s, ':') ==> forall j :: 0 <= j < |p| ==> IsTagChar(p[j])
    ensures s[i] != '{'
  {
    var rest := Split(s[1..], ':');
    if s[0] == ':' {
      assert Split(s, ':') == [""] + rest;
      forall p | p in rest ensures forall j :: 0 <= j < |p| ==> IsTagChar(p[j]) {
        assert p in [""] + rest;
      }
    } else {
      var first := [s[0]] + rest[0];
      assert Split(s, ':') == [first] + rest[1..];
      assert first in Split(s, ':');
      assert IsTagChar(first[0]);
      forall p | p in rest ensures forall j :: 0 <= j < |p| ==> IsTagChar(p[j]) {
        if p == rest[0] {
          forall j | 0 <= j < |p| ensures IsTagChar(p[j]) {
            assert first[j + 1] == p[j];
          }
        } else {
          assert rest == [rest[0]] + rest[1..];
          assert p in rest[1..];
          assert p in [first] + rest[1..];
        }
      }
    }
    if i > 0 {
      TagHasNoBrace(s[1..], i - 1);
    }
  }

  // ----- Sanitizing and the grammars, character by character -----

  lemma {:induction false} SanitizeJoins(s: string, t: string)
    ensures Sanitize(s + t) == Sanitize(s) + Sanitize(t)
  {
    hide Sanitize;
    if s == "" {
      SanitizeEmpty();
      assert "" + t == t;
    } else {
      assert (s + t)[0] == s[0] && (s + t)[1..] == s[1..] + t;
      SanitizeJoins(s[1..], t);
      SanitizeStep(s + t);
      SanitizeStep(s);
    }
  }

  /** Capital letters become small, dots and plus signs hyphens; small letters, digits, underscores and hyphens stay,
      and nothing else does. */
  lemma SanitizeOne(c: char)
    ensures Sanitize([c]) ==
            if 'A' <= c <= 'Z' then [(c as int + 32) as char]
            else if c == '.' || c == '+' then "-"
            else if 'a' <= c <= 'z' || '0' <= c <= '9' || c == '_' || c == '-' then [c]
            else ""
  {
    hide Sanitize;
    assert [c][1..] == "";
    SanitizeStep([c]);
    SanitizeEmpty();
  }

  /** Texts without capital letters, dots, plus signs and characters to be dropped stay as they are. */
  lemma SanitizeKeeps(s: string)
    requires forall i :: 0 <= i < |s| ==> 'a' <= s[i] <= 'z' || '0' <= s[i] <= '9' || s[i] == '_' || s[i] == '-'
    ensures Sanitize(s) == s
  {
    TagCharsStay(s);
  }

  /** What a version becomes. */
  lemma SanitizedVersions(major: string, minor: string, patch: string, build: string)
    requires Sanitize(major) == major && Sanitize(minor) == minor
    requires Sanitize(patch) == patch && Sanitize(build) == build
    ensures Sanitize(major + "." + minor + "." + patch) == major + "-" + minor + "-" + patch
    ensures Sanitize(major + "." + minor + "." + patch + "+" + build) == major + "-" + minor + "-" + patch + "-" + build
  {
    hide Sanitize;
    SanitizeOne('.');
    SanitizeOne('+');
    SanitizeJoins(major, ".");
    SanitizeJoins(major + ".", minor);
    SanitizeJoins(major + "." + minor, ".");
    SanitizeJoins(major + "." + minor + ".", patch);
    SanitizeJoins(major + "." + minor + "." + patch, "+");
    SanitizeJoins(major + "." + minor + "." + patch + "+", build);
  }

  /** The characters of a tag's segments, and of the names and versions a tag is built from. */
  lemma GrammarsAre(s: string)
    ensures IsSegment(s) <==>
              && s != "" && ('a' <= s[0] <= 'z' || '0' <= s[0] <= '9')
              && forall i :: 0 <= i < |s| ==>
                   'a' <= s[i] <= 'z' || '0' <= s[i] <= '9' || s[i] == '_' || s[i] == '-'
    ensures IsSchemaId(s) <==>
              && s != "" && ('a' <= s[0] <= 'z' || 'A' <= s[0] <= 'Z')
              && forall i :: 0 <= i < |s| ==>
                   || 'a' <= s[i] <= 'z' || 'A' <= s[i] <= 'Z' || '0' <= s[i] <= '9'
                   || s[i] == '.' || s[i] == '_' || s[i] == ':' || s[i] == '-'
    ensures IsVersion(s) <==>
              && s != "" && '0' <= s[0] <= '9'
              && forall i :: 0 <= i < |s| ==>
                   || 'a' <= s[i] <= 'z' || 'A' <= s[i] <= 'Z' || '0' <= s[i] <= '9'
                   || s[i] == '.' || s[i] == '_' || s[i] == '+' || s[i] == '-'
  {
    assert forall c :: c in "._:-" <==> c == '.' || c == '_' || c == ':' || c == '-';
    assert forall c :: c in "._+-" <==> c == '.' || c == '_' || c == '+' || c == '-';
  }

  /** What is built of a name and a version, and what is refused, in this order. */
  lemma BuiltTagIs(schemaId: string, version: string)
    ensures BuildDomainTag(schemaId, version) ==
            if |schemaId| == 0 || |schemaId| > 256 then Failure(SchemaIdLength)
            else if !IsSchemaId(schemaId) then Failure(SchemaIdGrammar)
            else if |version| == 0 || |version| > 256 then Failure(VersionLength)
            else if !IsVersion(version) then Failure(VersionGrammar)
            else Success("loa-commons:audit:" + Sanitize(schemaId) + ":" + Sanitize(version))
  {
    hide Sanitize, IsSchemaId, IsVersion;
  }
}
