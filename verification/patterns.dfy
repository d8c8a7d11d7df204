/** The two line patterns the classifier uses, written out by hand. A regex
    `re.match` succeeds when the pattern matches some prefix of the line, so
    each predicate below says that split points exist at which every piece
    of the pattern matches. `\s` is `Text.IsSpace`; `\w` is taken as the
    ASCII word characters. */
module Patterns {
  import opened Text

  predicate IsWordChar(c: char) {
    ('a' <= c <= 'z') || ('A' <= c <= 'Z') || ('0' <= c <= '9') || c == '_'
  }

  /** `.` in a regex: any character but LF. */
  predicate NoNewline(s: string) {
    forall k :: 0 <= k < |s| ==> s[k] != '\n'
  }

  /** `keyword\s` at the start of `s`. */
  predicate KeywordThenSpace(s: string, keyword: string) {
    |s| > |keyword| && s[..|keyword|] == keyword && IsSpace(s[|keyword|])
  }

  /** `export\s.*\sfrom\s`, the `\sfrom\s` starting at index `j`. */
  predicate ExportFromAt(s: string, j: nat) {
    && KeywordThenSpace(s, "export")
    && 7 <= j && j + 6 <= |s|
    && NoNewline(s[7..j])
    && IsSpace(s[j]) && s[j + 1..j + 5] == "from" && IsSpace(s[j + 5])
  }

  /** `const\s+[\w{].*=\s*require`, with `[\w{]` at `k`, `=` at `m` and
      `require` at `p`. */
  predicate ConstRequireAt(s: string, k: nat, m: nat, p: nat) {
    && 5 < k < m < p && p + 7 <= |s|
    && s[..5] == "const"
    && AllSpace(s[5..k])
    && (IsWordChar(s[k]) || s[k] == '{')
    && NoNewline(s[k + 1..m])
    && s[m] == '='
    && AllSpace(s[m + 1..p])
    && s[p..p + 7] == "require"
  }

  /** The import pattern of `classify_conflict`:
      `^(import\s|from\s|require\(|export\s.*\sfrom\s|const\s+[\w{].*=\s*require|@import\s|@use\s)`. */
  predicate IsImportLine(s: string) {
    || KeywordThenSpace(s, "import")
    || KeywordThenSpace(s, "from")
    || "require(" <= s
    || (exists j | 0 <= j < |s| :: ExportFromAt(s, j))
    || (exists k, m, p | 0 <= k < |s| && 0 <= m < |s| && 0 <= p < |s| :: ConstRequireAt(s, k, m, p))
    || KeywordThenSpace(s, "@import")
    || KeywordThenSpace(s, "@use")
  }

  /** The bracket class `[\w^~>=<.*:| -]`. */
  predicate IsVersionChar(c: char) {
    IsWordChar(c) || c in "^~>=<.*:| -"
  }

  /** `^\s*"[^"]+"\s*:\s*"[\w^~>=<.*:| -]`, with the quotes around the key
      at `a` and `b`, the colon at `c` and the opening quote of the value at `d`. */
  predicate VersionAt(s: string, a: nat, b: nat, c: nat, d: nat) {
    && a + 1 < b < c < d && d + 1 < |s|
    && AllSpace(s[..a])
    && s[a] == '"'
    && '"' !in s[a + 1..b]
    && s[b] == '"'
    && AllSpace(s[b + 1..c])
    && s[c] == ':'
    && AllSpace(s[c + 1..d])
    && s[d] == '"'
    && IsVersionChar(s[d + 1])
  }

  /** The version pattern of `classify_conflict`: a quoted key, a colon and
      the start of a quoted version range, as in a dependency manifest. */
  predicate IsVersionLine(s: string) {
    exists a, b, c, d | 0 <= a < |s| && 0 <= b < |s| && 0 <= c < |s| && 0 <= d < |s| :: VersionAt(s, a, b, c, d)
  }

  /** An import line starts with one of the statement keywords the pattern names. */
  lemma ImportLineKeywords(s: string)
    requires IsImportLine(s)
    ensures || "import" <= s || "from" <= s || "require(" <= s || "export" <= s
            || "const" <= s || "@import" <= s || "@use" <= s
  {
    if exists j | 0 <= j < |s| :: ExportFromAt(s, j) {
      var j :| 0 <= j < |s| && ExportFromAt(s, j);
      assert s[..6] == "export";
    } else if exists k, m, p | 0 <= k < |s| && 0 <= m < |s| && 0 <= p < |s| :: ConstRequireAt(s, k, m, p) {
      var k, m, p :| 0 <= k < |s| && 0 <= m < |s| && 0 <= p < |s| && ConstRequireAt(s, k, m, p);
      assert s[..5] == "const";
    } else if KeywordThenSpace(s, "import") {
      assert s[..6] == "import";
    } else if KeywordThenSpace(s, "from") {
      assert s[..4] == "from";
    } else if KeywordThenSpace(s, "@import") {
      assert s[..7] == "@import";
    } else if KeywordThenSpace(s, "@use") {
      assert s[..4] == "@use";
    }
  }

  /** A re-export from another module is an import line, whatever names
      it lists on one line. */
  lemma ExportFromLine(names: string, rest: string)
    requires NoNewline(names)
    ensures IsImportLine("export " + names + " from " + rest)
  {
    var s := "export " + names + " from " + rest;
    var j := 7 + |names|;
    assert s[..6] == "export" && s[6] == ' ';
    assert s[7..j] == names;
    assert s[j] == ' ' && s[j + 1..j + 5] == "from" && s[j + 5] == ' ';
    assert ExportFromAt(s, j);
  }

  /** A re-export from another module is an import line. */
  lemma ReExportIsImport()
    ensures IsImportLine("export { a } from './a'")
  {
    assert "export { a } from './a'" == "export " + "{ a }" + " from " + "'./a'";
    ExportFromLine("{ a }", "'./a'");
  }

  /** A CommonJS `require` bound to a constant, with single spaces around
      the `=`, is an import line whatever the binding and the module. */
  lemma ConstRequireLine(binding: string, rest: string)
    requires |binding| > 0 && (IsWordChar(binding[0]) || binding[0] == '{') && NoNewline(binding)
    ensures IsImportLine("const " + binding + " = require" + rest)
  {
    var s := "const " + binding + " = require" + rest;
    var n := |binding|;
    var m := 7 + n;
    assert s[..5] == "const";
    assert s[5..6] == [' '];
    assert s[6] == binding[0];
    assert s[7..m] == binding[1..] + " ";
    assert s[m] == '=' && s[m + 1..m + 2] == [' '];
    assert s[m + 2..m + 9] == "require";
    assert ConstRequireAt(s, 6, m, m + 2);
  }

  /** A CommonJS `require` bound to a constant is an import line. */
  lemma ConstRequireIsImport()
    ensures IsImportLine("const { b } = require('b')")
  {
    assert "const { b } = require('b')" == "const " + "{ b }" + " = require" + "('b')";
    ConstRequireLine("{ b }", "('b')");
  }

  /** A line that does not start with any of the keywords is not an import line. */
  lemma NoKeywordIsNotImport(s: string)
    requires !("import" <= s) && !("from" <= s) && !("require(" <= s) && !("export" <= s)
    requires !("const" <= s) && !("@import" <= s) && !("@use" <= s)
    ensures !IsImportLine(s)
  {
    if IsImportLine(s) {
      ImportLineKeywords(s);
    }
  }

  /** A `return` statement is not an import line. */
  lemma ReturnIsNotImport()
    ensures !IsImportLine("return a")
  {
    var r := "return a";
    assert r[0] == 'r' && r[1] == 'e' && r[2] == 't';
    NoKeywordIsNotImport(r);
  }

  /** A quoted key, a colon and a quoted value that starts like a version
      range match the version pattern. */
  lemma QuotedPairIsVersionLine(key: string, value: string)
    requires |key| > 0 && '"' !in key
    requires |value| > 0 && IsVersionChar(value[0])
    ensures IsVersionLine("\"" + key + "\": \"" + value)
  {
    var s := "\"" + key + "\": \"" + value;
    var b := |key| + 1;
    assert s[1..b] == key;
    assert s[0] == '"' && s[b] == '"' && s[b + 1] == ':' && s[b + 3] == '"';
    assert s[b + 4] == value[0];
    assert s[b + 2..b + 3] == [s[b + 2]] && s[b + 2] == ' ';
    assert VersionAt(s, 0, b, b + 1, b + 3);
  }

  /** A line without a double quote never matches the version pattern. */
  lemma UnquotedIsNotVersionLine(s: string)
    requires '"' !in s
    ensures !IsVersionLine(s)
  {
  }

  /** A manifest dependency line matches the version pattern; a bare word does not. */
  lemma VersionLineExamples()
    ensures IsVersionLine("\"react\": \"^18.2.0\",")
    ensures !IsVersionLine("react")
  {
    assert "\"react\": \"^18.2.0\"," == "\"" + "react" + "\": \"" + "^18.2.0\",";
    QuotedPairIsVersionLine("react", "^18.2.0\",");
    UnquotedIsNotVersionLine("react");
  }
}
