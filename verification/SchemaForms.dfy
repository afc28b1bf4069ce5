/** The formats of the schemas, each said as the texts its pattern matches. */
module SchemaForms {
  import opened Documents
  import opened ReleasePlanning
  import opened Text

  const LOWER := "abcdefghijklmnopqrstuvwxyz"
  const UPPER := "ABCDEFGHIJKLMNOPQRSTUVWXYZ"
  const DIGITS := "0123456789"

  lemma LowerExact(c: char)
    ensures c in LOWER <==> 'a' <= c <= 'z'
  {
    assert forall i :: 0 <= i < 26 ==> LOWER[i] == ('a' as int + i) as char;
    if 'a' <= c <= 'z' {
      assert LOWER[c as int - 'a' as int] == c;
    }
  }

  lemma UpperExact(c: char)
    ensures c in UPPER <==> 'A' <= c <= 'Z'
  {
    assert forall i :: 0 <= i < 26 ==> UPPER[i] == ('A' as int + i) as char;
    if 'A' <= c <= 'Z' {
      assert UPPER[c as int - 'A' as int] == c;
    }
  }

  lemma DigitExact(c: char)
    ensures c in DIGITS <==> '0' <= c <= '9'
    ensures c in DIGITS <==> IsDigit(c)
  {
    assert forall i :: 0 <= i < 10 ==> DIGITS[i] == ('0' as int + i) as char;
    if '0' <= c <= '9' {
      assert DIGITS[c as int - '0' as int] == c;
    }
  }

  ghost predicate Made(s: string, from: string) {
    forall c :: c in s ==> c in from
  }

  // ---------- identifiers: ^[a-z0-9]+(?:[-_][a-z0-9]+)*$ ----------

  /** Words of lower-case letters and digits, with one dash or underscore between two of them. */
  ghost predicate AreWords(s: string)
    decreases |s|
  {
    || (s != "" && Made(s, LOWER + DIGITS))
    || exists word, mark, rest :: |rest| < |s| && s == word + [mark] + rest
         && word != "" && Made(word, LOWER + DIGITS) && mark in "-_" && AreWords(rest)
  }

  predicate IsWordChar(c: char) {
    'a' <= c <= 'z' || '0' <= c <= '9'
  }

  lemma MadeWord(s: string)
    ensures Made(s, LOWER + DIGITS) <==> All(s, IsWordChar)
  {
    forall c: char ensures c in LOWER + DIGITS <==> IsWordChar(c) {
      LowerExact(c);
      DigitExact(c);
      assert c in LOWER + DIGITS <==> c in LOWER || c in DIGITS;
    }
    hide LOWER, DIGITS;
    assert forall i :: 0 <= i < |s| ==> s[i] in s;
  }

  lemma {:induction false} WordsRest(s: string, n: nat)
    requires n < |s| && IsIdentifier(s) && IsSeparator(s[n])
    ensures IsIdentifier(s[n + 1..])
  {
    var rest := s[n + 1..];
    var end := |s| - 1;
    assert !IsSeparator(s[end]);
    assert rest != "" && rest[|rest| - 1] == s[end];
    assert !(IsSeparator(s[n + 1 - 1]) && IsSeparator(s[n + 1]));
    assert rest[0] == s[n + 1];
    forall i | 0 < i < |rest| ensures !(IsSeparator(rest[i - 1]) && IsSeparator(rest[i])) {
      assert rest[i] == s[n + 1 + i] && rest[i - 1] == s[n + 1 + i - 1];
    }
  }

  lemma {:induction false} WordsJoin(word: string, mark: char, rest: string)
    requires word != "" && All(word, IsWordChar) && IsSeparator(mark) && IsIdentifier(rest)
    ensures IsIdentifier(word + [mark] + rest)
  {
    var s := word + [mark] + rest;
    var n := |word| + 1;
    forall i | 0 <= i < |s| ensures 'a' <= s[i] <= 'z' || '0' <= s[i] <= '9' || IsSeparator(s[i]) {
      assert s[i] == if i < n - 1 then word[i] else if i == n - 1 then mark else rest[i - n];
      assert i < n - 1 ==> IsWordChar(word[i]);
    }
    forall i | 0 < i < |s| ensures !(IsSeparator(s[i - 1]) && IsSeparator(s[i])) {
      if i < n {
        assert s[i - 1] == word[i - 1] && IsWordChar(word[i - 1]);
      } else if i == n {
        assert s[i] == rest[0];
      } else {
        assert s[i - 1] == rest[i - 1 - n] && s[i] == rest[i - n];
      }
    }
    assert s[0] == word[0] && IsWordChar(word[0]) && s[|s| - 1] == rest[|rest| - 1];
  }

  lemma MarkExact(c: char)
    ensures c in "-_" <==> IsSeparator(c)
  {
  }

  lemma {:induction false} WordsAreIdentifier(s: string)
    requires AreWords(s)
    ensures IsIdentifier(s)
    decreases |s|
  {
    hide LOWER, DIGITS, IsIdentifier;
    MadeWord(s);
    if s != "" && All(s, IsWordChar) {
      WordIsIdentifier(s);
    } else {
      var word, mark, rest :| |rest| < |s| && s == word + [mark] + rest
        && word != "" && Made(word, LOWER + DIGITS) && mark in "-_" && AreWords(rest);
      MadeWord(word);
      MarkExact(mark);
      WordsAreIdentifier(rest);
      WordsJoin(word, mark, rest);
    }
  }

  lemma WordIsIdentifier(s: string)
    requires s != "" && All(s, IsWordChar)
    ensures IsIdentifier(s)
  {
    assert forall i :: 0 <= i < |s| ==> IsWordChar(s[i]);
  }

  lemma {:induction false} IdentifierIsWords(s: string)
    requires IsIdentifier(s)
    ensures AreWords(s)
    decreases |s|
  {
    hide LOWER, DIGITS, IsIdentifier, All, Made;
    MadeWord(s);
    var n := Run(s, IsWordChar);
    IdentifierRun(s);
    if n < |s| {
      var word, mark, rest := s[..n], s[n], s[n + 1..];
      assert s == word + [mark] + rest;
      MadeWord(word);
      MarkExact(mark);
      WordsRest(s, n);
      IdentifierIsWords(rest);
    }
  }

  lemma {:induction false} IdentifierRun(s: string)
    requires IsIdentifier(s)
    ensures var n := Run(s, IsWordChar);
      && 0 < n <= |s| && All(s[..n], IsWordChar)
      && (if n < |s| then IsSeparator(s[n]) else All(s, IsWordChar))
  {
  }

  lemma IdentifierExact(s: string)
    ensures IsIdentifier(s) <==> AreWords(s)
  {
    hide IsIdentifier, AreWords;
    if IsIdentifier(s) {
      IdentifierIsWords(s);
    }
    if AreWords(s) {
      WordsAreIdentifier(s);
    }
  }

  // ---------- artifact paths ----------

  /** Letters and digits, with dots, underscores and dashes inside. */
  ghost predicate IsPart(part: string) {
    && part != "" && part[0] in LOWER + UPPER + DIGITS && part[|part| - 1] in LOWER + UPPER + DIGITS
    && Made(part, LOWER + UPPER + DIGITS + "._-")
  }

  ghost predicate AreParts(path: string) {
    exists parts: seq<string> :: parts != [] && path == Join(parts, '/') && forall part :: part in parts ==> IsPart(part)
  }

  lemma AlphanumericExact(c: char)
    ensures c in LOWER + UPPER + DIGITS <==> IsAlphanumeric(c)
    ensures c in LOWER + UPPER + DIGITS + "._-" <==> IsAlphanumeric(c) || c == '.' || c == '_' || c == '-'
  {
    LowerExact(c);
    UpperExact(c);
    DigitExact(c);
    assert c in LOWER + UPPER + DIGITS <==> c in LOWER || c in UPPER || c in DIGITS;
    assert c in LOWER + UPPER + DIGITS + "._-" <==> c in LOWER + UPPER + DIGITS || c in "._-";
  }

  lemma PartExact(part: string)
    ensures IsArtifactPart(part) <==> IsPart(part)
  {
    hide LOWER, UPPER, DIGITS, IsAlphanumeric;
    forall c: char
      ensures c in LOWER + UPPER + DIGITS <==> IsAlphanumeric(c)
      ensures c in LOWER + UPPER + DIGITS + "._-" <==> IsAlphanumeric(c) || c == '.' || c == '_' || c == '-'
    {
      AlphanumericExact(c);
    }
    assert forall i :: 0 <= i < |part| ==> part[i] in part;
  }

  lemma {:induction false} ArtifactPathExact(path: string)
    ensures IsArtifactPath(path) <==> |path| <= 1024 && path != "manifest.json" && AreParts(path)
  {
    hide LOWER, UPPER, DIGITS, IsPart, IsArtifactPart, Join;
    forall part ensures IsArtifactPart(part) <==> IsPart(part) {
      PartExact(part);
    }
    if forall part :: part in Split(path, '/') ==> IsArtifactPart(part) {
      JoinSplit(path, '/');
    }
    if AreParts(path) {
      var parts: seq<string> :| parts != [] && path == Join(parts, '/') && forall part :: part in parts ==> IsPart(part);
      forall part | part in parts ensures '/' !in part {
        PartFree(part);
      }
      SplitJoin(parts, '/');
    }
  }

  lemma PartFree(part: string)
    requires IsPart(part)
    ensures '/' !in part
  {
    PartExact(part);
  }

  // ---------- hosts ----------

  /** Up to 63 lower-case letters, digits and dashes, with no dash at an end. */
  ghost predicate IsLabel(name: string) {
    && 1 <= |name| <= 63 && name[0] in LOWER + DIGITS && name[|name| - 1] in LOWER + DIGITS
    && Made(name, LOWER + DIGITS + "-")
  }

  ghost predicate AreLabels(host: string) {
    exists names: seq<string> :: |names| >= 2 && host == Join(names, '.') && forall name :: name in names ==> IsLabel(name)
  }

  lemma LabelExact(name: string)
    ensures IsHostLabel(name) <==> IsLabel(name)
  {
    forall c: char
      ensures c in LOWER + DIGITS <==> IsWordChar(c)
      ensures c in LOWER + DIGITS + "-" <==> IsWordChar(c) || c == '-'
    {
      LowerExact(c);
      DigitExact(c);
      assert c in LOWER + DIGITS <==> c in LOWER || c in DIGITS;
      assert c in LOWER + DIGITS + "-" <==> c in LOWER + DIGITS || c in "-";
    }
    hide LOWER, DIGITS;
    assert forall i :: 0 <= i < |name| ==> name[i] in name;
  }

  lemma {:induction false} HostExact(host: string)
    ensures IsHost(host) <==> AreLabels(host)
  {
    hide LOWER, DIGITS, IsLabel, IsHostLabel, Join;
    forall name ensures IsHostLabel(name) <==> IsLabel(name) {
      LabelExact(name);
    }
    if IsHost(host) {
      JoinSplit(host, '.');
    }
    if AreLabels(host) {
      var names: seq<string> :| |names| >= 2 && host == Join(names, '.') && forall name :: name in names ==> IsLabel(name);
      forall name | name in names ensures '.' !in name {
        LabelFree(name);
      }
      SplitJoin(names, '.');
    }
  }

  lemma LabelFree(name: string)
    requires IsLabel(name)
    ensures '.' !in name
  {
    LabelExact(name);
  }

  // ---------- compiler versions: ^\d+\.\d+\.\d+(?:-[0-9A-Za-z.-]+)?(?:\+[0-9A-Za-z.-]+)?$ ----------

  ghost predicate IsNumber(s: string) {
    s != "" && Made(s, DIGITS)
  }

  ghost predicate IsSuffix(s: string, mark: char) {
    s == "" || (|s| >= 2 && s[0] == mark && Made(s[1..], DIGITS + UPPER + LOWER + ".-"))
  }

  ghost predicate IsVersion(version: string, major: string) {
    exists minor, patch, release, build ::
      && IsNumber(major) && IsNumber(minor) && IsNumber(patch) && IsSuffix(release, '-') && IsSuffix(build, '+')
      && version == major + ("." + (minor + ("." + (patch + (release + build)))))
  }

  lemma NumberExact(s: string)
    ensures Made(s, DIGITS) <==> All(s, IsDigit)
  {
    forall c: char ensures c in DIGITS <==> IsDigit(c) {
      DigitExact(c);
    }
    hide DIGITS;
    assert forall i :: 0 <= i < |s| ==> s[i] in s;
  }

  lemma SuffixChars(s: string)
    ensures Made(s, DIGITS + UPPER + LOWER + ".-") <==> All(s, IsVersionChar)
  {
    forall c: char ensures c in DIGITS + UPPER + LOWER + ".-" <==> IsVersionChar(c) {
      LowerExact(c);
      UpperExact(c);
      DigitExact(c);
      assert c in DIGITS + UPPER + LOWER + ".-" <==> c in DIGITS || c in UPPER || c in LOWER || c in ".-";
    }
    hide DIGITS, UPPER, LOWER;
    assert forall i :: 0 <= i < |s| ==> s[i] in s;
  }

  /** What a suffix leaves, when what follows cannot belong to it. */
  lemma {:induction false} SuffixSkipped(suffix: string, mark: char, rest: string)
    requires IsSuffix(suffix, mark) && (rest != "" ==> rest[0] != mark && !IsVersionChar(rest[0]))
    ensures SkipSuffix(suffix + rest, mark) == rest
  {
    if suffix != "" {
      var s := suffix + rest;
      SuffixChars(suffix[1..]);
      assert s[1..] == suffix[1..] + rest;
      RunStops(suffix[1..], rest, IsVersionChar);
      assert s[|suffix|..] == rest;
    } else {
      assert suffix + rest == rest;
    }
  }

  lemma {:induction false} SuffixTaken(s: string, mark: char) returns (suffix: string)
    ensures IsSuffix(suffix, mark) && s == suffix + SkipSuffix(s, mark)
  {
    var rest := SkipSuffix(s, mark);
    suffix := s[..|s| - |rest|];
    if |rest| < |s| {
      SuffixChars(suffix[1..]);
      assert forall i :: 0 <= i < |suffix| - 1 ==> suffix[1..][i] == s[1..][i];
    }
  }

  lemma NotVersionChars()
    ensures !IsVersionChar('+') && !IsDigit('.') && !IsDigit('-') && !IsDigit('+')
  {
  }

  /** The third number and the suffixes. */
  predicate IsTail(last: string) {
    var c := Run(last, IsDigit);
    c > 0 && SkipSuffix(SkipSuffix(last[c..], '-'), '+') == ""
  }

  lemma {:induction false} TailIs(patch: string, release: string, build: string)
    requires IsNumber(patch) && IsSuffix(release, '-') && IsSuffix(build, '+')
    ensures IsTail(patch + (release + build))
  {
    hide Made, Run, All, SkipSuffix;
    var tail := release + build;
    NumberExact(patch);
    NotVersionChars();
    assert tail != "" ==> tail[0] == '-' || tail[0] == '+';
    RunStops(patch, tail, IsDigit);
    assert (patch + tail)[|patch|..] == tail;
    SuffixSkipped(release, '-', build);
    SuffixSkipped(build, '+', "");
    assert build + "" == build;
  }

  lemma {:induction false} TailParts(last: string) returns (patch: string, release: string, build: string)
    requires IsTail(last)
    ensures IsNumber(patch) && IsSuffix(release, '-') && IsSuffix(build, '+')
    ensures last == patch + (release + build)
  {
    hide Made, SkipSuffix;
    var c := Run(last, IsDigit);
    patch := last[..c];
    NumberExact(patch);
    release := SuffixTaken(last[c..], '-');
    build := SuffixTaken(SkipSuffix(last[c..], '-'), '+');
    assert build + "" == build;
    assert last == patch + last[c..];
  }

  lemma {:induction false} NumberParts(s: string)
    requires 0 < Run(s, IsDigit) < |s| && s[Run(s, IsDigit)] == '.'
    ensures var a := Run(s, IsDigit); IsNumber(s[..a]) && s == s[..a] + ("." + s[a + 1..])
  {
    NumberExact(s[..Run(s, IsDigit)]);
  }

  lemma SemverTail(version: string)
    ensures IsSemver(version) <==>
      var a := Run(version, IsDigit);
      && a > 0 && a < |version| && version[a] == '.'
      && var rest := version[a + 1..];
         var b := Run(rest, IsDigit);
         b > 0 && b < |rest| && rest[b] == '.' && IsTail(rest[b + 1..])
  {
  }

  lemma {:induction false} VersionIsSemver(version: string, major: string)
    requires IsVersion(version, major)
    ensures IsSemver(version) && version[..Run(version, IsDigit)] == major
  {
    hide Made, Run, All, IsSemver, IsTail, IsSuffix;
    var minor, patch, release, build :|
      && IsNumber(major) && IsNumber(minor) && IsNumber(patch) && IsSuffix(release, '-') && IsSuffix(build, '+')
      && version == major + ("." + (minor + ("." + (patch + (release + build)))));
    var tail := patch + (release + build);
    NumberExact(major);
    NumberExact(minor);
    NumberThenRest(major, minor + ("." + tail));
    NumberThenRest(minor, tail);
    TailIs(patch, release, build);
    SemverTail(version);
    assert version[..|major|] == major;
  }

  lemma {:induction false} SemverIsVersion(version: string)
    requires IsSemver(version)
    ensures IsVersion(version, version[..Run(version, IsDigit)])
  {
    hide Made, Run, All, IsSemver, IsTail, IsSuffix, IsNumber;
    SemverTail(version);
    var rest := version[Run(version, IsDigit) + 1..];
    NumberParts(version);
    NumberParts(rest);
    var patch, release, build := TailParts(rest[Run(rest, IsDigit) + 1..]);
  }

  /** A supported compiler has a version of this form with the value 1 as its first number. */
  lemma {:induction false} SupportedExact(version: string)
    ensures CompilerSupported(version) <==>
      exists major :: IsVersion(version, major) && All(major, IsDigit) && NatValue(major) == 1
  {
    hide IsSemver, IsVersion, Run, NatValue;
    if IsSemver(version) {
      SemverIsVersion(version);
    }
    if major :| IsVersion(version, major) && All(major, IsDigit) && NatValue(major) == 1 {
      VersionIsSemver(version, major);
    }
  }
}
