/**
  `parse_version`: reading a version number out of what a tool prints for `--version`.
*/
module VersionParsing {
  import opened Base
  import opened Strings

  /** A word without trailing commas, then without trailing semicolons. */
  function CleanWord(word: string): (t: string)
    ensures t <= word
    ensures t == [] || t[|t| - 1] != ';'
    ensures (word == [] || (word[|word| - 1] != ',' && word[|word| - 1] != ';')) ==> t == word
  {
    TrimEndMatches(TrimEndMatches(word, ','), ';')
  }

  /** Starts with an ASCII digit and contains a dot. */
  predicate LooksLikeVersion(t: string) {
    t != [] && IsDigit(t[0]) && '.' in t
  }

  /** The index of the first word that looks like a version once cleaned, or `|words|`. */
  function VersionWordIndex(words: seq<string>): (k: nat)
    ensures k <= |words|
    ensures k < |words| ==> LooksLikeVersion(CleanWord(words[k]))
    ensures forall j :: 0 <= j < k ==> !LooksLikeVersion(CleanWord(words[j]))
  {
    if words == [] then 0
    else if LooksLikeVersion(CleanWord(words[0])) then 0
    else 1 + VersionWordIndex(words[1..])
  }

  /**
    `parse_version`: the first whitespace-separated word that, without trailing commas
    and semicolons, starts with a digit and contains a dot; failing that the first line
    of the output, and "unknown" for empty output.
  */
  function ParseVersion(output: string): string {
    var words := SplitWhitespace(output);
    var k := VersionWordIndex(words);
    if k < |words| then CleanWord(words[k])
    else FirstLine(output).GetOr("unknown")
  }

  /**
    What `parse_version` returns: the first qualifying word, cleaned, which looks like
    a version and has no whitespace; else "unknown" for empty output; else the first
    line of the output, which is all of it when there is no line feed and is otherwise
    followed by "\n" or "\r\n".
  */
  lemma ParseVersionShape(output: string)
    ensures var words := SplitWhitespace(output);
      var k := VersionWordIndex(words);
      var v := ParseVersion(output);
      && (k < |words| ==> v == CleanWord(words[k]) && LooksLikeVersion(v) && NoWhitespace(v) && v <= words[k])
      && (k == |words| && output == [] ==> v == "unknown")
      && (k == |words| && output != [] ==>
            && v == FirstLine(output).value
            && v <= output && '\n' !in v
            && ('\n' !in output ==> v == output)
            && ('\n' in output ==> v + "\n" <= output || v + "\r\n" <= output))
  {
    if output != [] {
      FirstLineShape(output);
    }
  }

  /** The version returned is the first version-like word: no earlier word qualifies. */
  lemma ParseVersionTakesFirst(output: string, j: nat)
    requires j < |SplitWhitespace(output)|
    requires LooksLikeVersion(CleanWord(SplitWhitespace(output)[j]))
    ensures var k := VersionWordIndex(SplitWhitespace(output));
      k <= j && ParseVersion(output) == CleanWord(SplitWhitespace(output)[k])
  {
    var words := SplitWhitespace(output);
    var k := VersionWordIndex(words);
    if j < k {
      assert false;
    }
  }

  /** A word that is passed over: no whitespace, and not version-like once cleaned. */
  predicate PlainWord(w: string) {
    w != [] && NoWhitespace(w) && !LooksLikeVersion(CleanWord(w))
  }

  predicate Blank(gap: string) {
    gap != [] && forall i :: 0 <= i < |gap| ==> IsWhitespace(gap[i])
  }

  /** `v`, followed by `rest`, is read as the first version-like word `version`. */
  predicate VersionFirst(v: string, rest: string, version: string) {
    && VersionWordIndex(SplitWhitespace(v + rest)) < |SplitWhitespace(v + rest)|
    && ParseVersion(v + rest) == version
  }

  /** A version-like word at the start of the output is the version. */
  lemma ParseVersionFirstWord(v: string, rest: string)
    requires v != [] && NoWhitespace(v) && LooksLikeVersion(CleanWord(v))
    requires rest == [] || IsWhitespace(rest[0])
    ensures VersionFirst(v, rest, CleanWord(v))
  {
    SplitWhitespaceTakesWord(v, rest);
    var words := SplitWhitespace(v + rest);
    assert words[0] == v;
    assert VersionWordIndex(words) == 0;
  }

  /** A leading word that does not look like a version is passed over. */
  lemma ParseVersionSkipsWord(w: string, gap: string, rest: string)
    requires PlainWord(w) && Blank(gap)
    requires VersionWordIndex(SplitWhitespace(rest)) < |SplitWhitespace(rest)|
    ensures VersionFirst(w + gap, rest, ParseVersion(rest))
  {
    var k := VersionWordIndex(SplitWhitespace(rest));
    SkippedWordShiftsIndex(w, gap, rest);
    assert ParseVersion(rest) == CleanWord(SplitWhitespace(rest)[k]);
  }

  lemma SkippedWordShiftsIndex(w: string, gap: string, rest: string)
    requires PlainWord(w) && Blank(gap)
    ensures var words := SplitWhitespace(w + gap + rest);
      var k := VersionWordIndex(SplitWhitespace(rest));
      && |words| == 1 + |SplitWhitespace(rest)|
      && VersionWordIndex(words) == 1 + k
      && (k < |SplitWhitespace(rest)| ==> words[1 + k] == SplitWhitespace(rest)[k])
  {
    SplitWhitespaceWordThenGap(w, gap, rest);
    VersionWordIndexSkips(w, SplitWhitespace(rest));
  }

  lemma SplitWhitespaceWordThenGap(w: string, gap: string, rest: string)
    requires w != [] && NoWhitespace(w) && Blank(gap)
    ensures SplitWhitespace(w + gap + rest) == [w] + SplitWhitespace(rest)
  {
    assert w + gap + rest == w + (gap + rest);
    SplitWhitespaceSkipsBlank(gap, rest);
    SplitWhitespaceTakesWord(w, gap + rest);
  }

  lemma VersionWordIndexSkips(w: string, words: seq<string>)
    requires !LooksLikeVersion(CleanWord(w))
    ensures VersionWordIndex([w] + words) == 1 + VersionWordIndex(words)
  {
    assert ([w] + words)[1..] == words;
  }

  /** One leading word that does not look like a version is passed over. */
  lemma ParseVersionSkipsOne(w: string, g: string, v: string, rest: string, version: string)
    requires PlainWord(w) && Blank(g)
    requires VersionFirst(v, rest, version)
    ensures ParseVersion(w + g + (v + rest)) == version
  {
    ParseVersionSkipsWord(w, g, v + rest);
  }

  /** Two leading words that do not look like versions are both passed over. */
  lemma ParseVersionSkipsTwo(w1: string, g1: string, w2: string, g2: string, v: string, rest: string, version: string)
    requires PlainWord(w1) && Blank(g1) && PlainWord(w2) && Blank(g2)
    requires VersionFirst(v, rest, version)
    ensures ParseVersion(w1 + g1 + (w2 + g2 + (v + rest))) == version
  {
    ParseVersionSkipsWord(w2, g2, v + rest);
    ParseVersionSkipsWord(w1, g1, w2 + g2 + (v + rest));
  }

  // The four outputs of the unit tests, each split into its words and the gaps between them.

  lemma SamplePlainWord(w: string)
    requires w in {"redis-cli", "psql", "(PostgreSQL)", "mysql", "Ver", "Docker", "version"}
    ensures PlainWord(w)
  {
    assert w[|w| - 1] != ',' && w[|w| - 1] != ';';
    assert !IsDigit(w[0]);
  }

  /** A word that is a version as it stands, or once its trailing commas are gone. */
  predicate VersionWord(v: string) {
    v != [] && NoWhitespace(v) && LooksLikeVersion(CleanWord(v))
  }

  lemma SampleVersionWord(v: string)
    requires v in {"7.0.11", "15.4", "8.0.35"}
    ensures VersionWord(v) && CleanWord(v) == v
  {
    assert CleanWord(v) == v;
    assert v[1] == '.' || v[2] == '.';
  }

  lemma DockerVersionWord(v: string)
    requires v == "24.0.5,"
    ensures VersionWord(v) && CleanWord(v) == "24.0.5"
  {
    assert TrimEndMatches(v, ',') == v[..6];
    assert CleanWord(v) == v[..6];
    assert CleanWord(v)[2] == '.';
  }

  /** The version after one word that is passed over. */
  lemma VersionAfterOneWord(w: string, g: string, v: string, rest: string)
    requires PlainWord(w) && Blank(g) && VersionWord(v)
    requires rest == [] || IsWhitespace(rest[0])
    ensures ParseVersion(w + g + (v + rest)) == CleanWord(v)
  {
    ParseVersionFirstWord(v, rest);
    ParseVersionSkipsOne(w, g, v, rest, CleanWord(v));
  }

  /** The version after two words that are passed over. */
  lemma VersionAfterTwoWords(w1: string, g1: string, w2: string, g2: string, v: string, rest: string)
    requires PlainWord(w1) && Blank(g1) && PlainWord(w2) && Blank(g2) && VersionWord(v)
    requires rest == [] || IsWhitespace(rest[0])
    ensures ParseVersion(w1 + g1 + (w2 + g2 + (v + rest))) == CleanWord(v)
  {
    ParseVersionFirstWord(v, rest);
    ParseVersionSkipsTwo(w1, g1, w2, g2, v, rest, CleanWord(v));
  }

  lemma ParseVersionRedis(tool: string, gap: string, version: string)
    requires tool == "redis-cli" && gap == " " && version == "7.0.11"
    ensures ParseVersion(tool + gap + (version + [])) == version
  {
    SamplePlainWord(tool);
    SampleVersionWord(version);
    VersionAfterOneWord(tool, gap, version, []);
  }

  lemma ParseVersionPsql(tool: string, gap1: string, name: string, gap2: string, version: string)
    requires tool == "psql" && gap1 == " " && name == "(PostgreSQL)" && gap2 == " " && version == "15.4"
    ensures ParseVersion(tool + gap1 + (name + gap2 + (version + []))) == version
  {
    SamplePlainWord(tool);
    SamplePlainWord(name);
    SampleVersionWord(version);
    VersionAfterTwoWords(tool, gap1, name, gap2, version, []);
  }

  lemma ParseVersionMysql(tool: string, gap1: string, ver: string, gap2: string, version: string, rest: string)
    requires tool == "mysql" && gap1 == "  " && ver == "Ver" && gap2 == " " && version == "8.0.35"
    requires rest == " Distrib 8.0.35, for Linux on x86_64"
    ensures ParseVersion(tool + gap1 + (ver + gap2 + (version + rest))) == version
  {
    SamplePlainWord(tool);
    SamplePlainWord(ver);
    SampleVersionWord(version);
    VersionAfterTwoWords(tool, gap1, ver, gap2, version, rest);
  }

  lemma ParseVersionDocker(tool: string, gap1: string, word: string, gap2: string, version: string, rest: string)
    requires tool == "Docker" && gap1 == " " && word == "version" && gap2 == " " && version == "24.0.5,"
    requires rest == " build ced0996"
    ensures ParseVersion(tool + gap1 + (word + gap2 + (version + rest))) == "24.0.5"
  {
    SamplePlainWord(tool);
    SamplePlainWord(word);
    DockerVersionWord(version);
    VersionAfterTwoWords(tool, gap1, word, gap2, version, rest);
  }
}
