/**
 * The two search patterns of `_get_character_type_regex` and what `re.match`
 * decides with them once a candidate is spliced in.
 *
 *   traditional:  `(cand) .+? \[.+?\] .+`
 *   otherwise:    `.+? (cand) \[.+?\] .+`
 *
 * `.` matches every character except a newline and `re.match` only asks for a
 * match at the start of the line, so a pattern matches exactly when the line
 * splits into the literal pieces of the pattern and non-empty, newline-free
 * stretches for the `.+?`/`.+` parts, followed by anything. Each pattern is
 * given twice: as that split (a ghost existential, the regular-expression
 * reading) and as a compiled test over indices, with a lemma that they agree.
 */
module Pattern {

  /** The closed variant the `character_type` string selects between. */
  datatype Template = Traditional | Simplified

  /** `_get_character_type_regex`: only the exact string "traditional" selects the traditional template. */
  function TemplateFor(characterType: string): (t: Template)
    ensures t == Traditional <==> characterType == "traditional"
    ensures t == Simplified <==> characterType != "traditional"
  {
    if characterType == "traditional" then Traditional else Simplified
  }

  /** The characters that have a meaning of their own in a Python regular expression. */
  predicate IsRegexMeta(c: char) {
    c in ".^$*+?{}[]\\|()"
  }

  /** A candidate that, spliced into a template, stands for itself. */
  predicate MetaFree(s: string) {
    forall k | 0 <= k < |s| :: !IsRegexMeta(s[k])
  }

  predicate NoNewline(s: string) {
    forall k | 0 <= k < |s| :: s[k] != '\n'
  }

  /** `pat` occurs in `s` at index `k`. */
  predicate HasAt(s: string, k: int, pat: string) {
    0 <= k && k + |pat| <= |s| && s[k..k + |pat|] == pat
  }

  // ---------------------------------------------------------------------------
  // The regular-expression reading
  // ---------------------------------------------------------------------------

  /** A non-empty run of characters that `.+` or `.+?` can consume. */
  ghost predicate Dots(s: string) {
    s != [] && NoNewline(s)
  }

  /** `r` begins with a match of ` \[.+?\] .+`. */
  ghost predicate BracketTailShape(r: string) {
    exists b: string, c: string, rest: string ::
      Dots(b) && Dots(c) && r == " [" + b + "] " + c + rest
  }

  /** `line` begins with a match of the template once `cand` is spliced in. */
  ghost predicate Shape(t: Template, cand: string, line: string) {
    match t
    case Traditional =>
      exists a: string, r: string :: Dots(a) && BracketTailShape(r) && line == cand + " " + a + r
    case Simplified =>
      exists a: string, r: string :: Dots(a) && BracketTailShape(r) && line == a + " " + cand + r
  }

  // ---------------------------------------------------------------------------
  // The compiled test
  // ---------------------------------------------------------------------------

  /** ` \[.+?\] .+` at the start of `r`: a closing "] " after at least one character, then one more character. */
  predicate BracketTail(r: string) {
    HasAt(r, 0, " [") && exists j | 3 <= j <= |r| - 3 :: HasAt(r, j, "] ") && NoNewline(r[..j + 3])
  }

  /** `pattern.match(line)` for the pattern `_generate_search_regex` builds from `cand`. */
  predicate Matches(t: Template, cand: string, line: string) {
    match t
    case Traditional =>
      HasAt(line, 0, cand + " ") &&
      var r := line[|cand| + 1..];
      exists i | 1 <= i <= |r| :: NoNewline(r[..i]) && BracketTail(r[i..])
    case Simplified =>
      exists i | 1 <= i <= |line| ::
        NoNewline(line[..i]) && HasAt(line, i, " " + cand) && BracketTail(line[i + 1 + |cand|..])
  }

  // ---------------------------------------------------------------------------
  // The two readings agree
  // ---------------------------------------------------------------------------

  lemma NoNewlineConcat(a: string, b: string)
    ensures NoNewline(a + b) <==> NoNewline(a) && NoNewline(b)
  {
    if NoNewline(a) && NoNewline(b) {
      forall k | 0 <= k < |a + b| ensures (a + b)[k] != '\n' {
        if k >= |a| { assert (a + b)[k] == b[k - |a|]; }
      }
    }
    if NoNewline(a + b) {
      forall k | 0 <= k < |a| ensures a[k] != '\n' {
        assert (a + b)[k] == a[k];
      }
      forall k | 0 <= k < |b| ensures b[k] != '\n' {
        assert (a + b)[|a| + k] == b[k];
      }
    }
  }

  lemma {:induction false} BracketTailCorrect(r: string)
    ensures BracketTail(r) <==> BracketTailShape(r)
  {
    if BracketTail(r) {
      var j :| 3 <= j <= |r| - 3 && HasAt(r, j, "] ") && NoNewline(r[..j + 3]);
      var b, c, rest := r[2..j], r[j + 2..j + 3], r[j + 3..];
      assert r[..j + 3] == r[..2] + b + r[j..j + 2] + c;
      NoNewlineConcat(r[..2] + b + r[j..j + 2], c);
      NoNewlineConcat(r[..2] + b, r[j..j + 2]);
      NoNewlineConcat(r[..2], b);
      assert r == " [" + b + "] " + c + rest;
      assert Dots(b) && Dots(c);
    }
    if BracketTailShape(r) {
      var b, c, rest :| Dots(b) && Dots(c) && r == " [" + b + "] " + c + rest;
      var j := 2 + |b|;
      assert r[..2] == " [";
      assert r[j..j + 2] == "] ";
      assert r[..j + 3] == " [" + b + "] " + [c[0]];
      NoNewlineConcat(" [" + b + "] ", [c[0]]);
      NoNewlineConcat(" [" + b, "] ");
      NoNewlineConcat(" [", b);
      assert HasAt(r, j, "] ") && NoNewline(r[..j + 3]);
    }
  }

  lemma TraditionalSound(cand: string, line: string)
    requires Matches(Traditional, cand, line)
    ensures Shape(Traditional, cand, line)
  {
    var r := line[|cand| + 1..];
    var i :| 1 <= i <= |r| && NoNewline(r[..i]) && BracketTail(r[i..]);
    BracketTailCorrect(r[i..]);
    assert line == cand + " " + r[..i] + r[i..];
    assert Dots(r[..i]);
  }

  lemma TraditionalComplete(cand: string, line: string)
    requires Shape(Traditional, cand, line)
    ensures Matches(Traditional, cand, line)
  {
    var a, r :| Dots(a) && BracketTailShape(r) && line == cand + " " + a + r;
    BracketTailCorrect(r);
    assert line[..|cand| + 1] == cand + " ";
    var r' := line[|cand| + 1..];
    assert r' == a + r;
    assert r'[..|a|] == a && r'[|a|..] == r;
  }

  lemma SimplifiedSound(cand: string, line: string)
    requires Matches(Simplified, cand, line)
    ensures Shape(Simplified, cand, line)
  {
    var i :| 1 <= i <= |line| && NoNewline(line[..i]) && HasAt(line, i, " " + cand)
             && BracketTail(line[i + 1 + |cand|..]);
    SimplifiedSplit(cand, line, i);
  }

  lemma SimplifiedSplit(cand: string, line: string, i: int)
    requires 1 <= i <= |line| && NoNewline(line[..i]) && HasAt(line, i, " " + cand)
    requires BracketTail(line[i + 1 + |cand|..])
    ensures Shape(Simplified, cand, line)
  {
    var m := i + 1 + |cand|;
    var a, r := line[..i], line[m..];
    BracketTailCorrect(r);
    assert line == a + (" " + cand) + r by {
      assert line == line[..i] + line[i..m] + line[m..];
    }
    assert Dots(a);
  }

  lemma SimplifiedComplete(cand: string, line: string)
    requires Shape(Simplified, cand, line)
    ensures Matches(Simplified, cand, line)
  {
    var a, r :| Dots(a) && BracketTailShape(r) && line == a + " " + cand + r;
    BracketTailCorrect(r);
    var i := |a|;
    assert line[..i] == a;
    assert line[i..i + 1 + |cand|] == " " + cand;
    assert line[i + 1 + |cand|..] == r;
  }

  /** The compiled test decides exactly the regular-expression reading, in both modes. */
  lemma MatchesCorrect(t: Template, cand: string, line: string)
    ensures Matches(t, cand, line) <==> Shape(t, cand, line)
  {
    match t
    case Traditional =>
      if Matches(t, cand, line) { TraditionalSound(cand, line); }
      if Shape(t, cand, line) { TraditionalComplete(cand, line); }
    case Simplified =>
      if Matches(t, cand, line) { SimplifiedSound(cand, line); }
      if Shape(t, cand, line) { SimplifiedComplete(cand, line); }
  }

  // ---------------------------------------------------------------------------
  // Consequences for the two modes
  // ---------------------------------------------------------------------------

  /** In traditional mode a matching line begins with the candidate followed by a space. */
  lemma TraditionalMatchAnchorsCandidate(cand: string, line: string)
    requires Shape(Traditional, cand, line)
    ensures |line| > |cand| && line[..|cand|] == cand && line[|cand|] == ' '
  {
    var a, r :| Dots(a) && BracketTailShape(r) && line == cand + " " + a + r;
    assert line[..|cand|] == cand;
    assert line[|cand|] == ' ';
  }

  /** In simplified mode the candidate in a matching line follows a space and is followed by " [". */
  lemma SimplifiedMatchAnchorsCandidate(cand: string, line: string)
    requires Shape(Simplified, cand, line)
    ensures exists i | 1 <= i :: HasAt(line, i, " " + cand + " [")
  {
    var a, r :| Dots(a) && BracketTailShape(r) && line == a + " " + cand + r;
    var b, c, rest :| Dots(b) && Dots(c) && r == " [" + b + "] " + c + rest;
    var i := |a|;
    assert line[i..i + |" " + cand + " ["|] == " " + cand + " [";
    assert HasAt(line, i, " " + cand + " [");
  }

  /** A line that matches is never empty, so the `if item` filter of the aggregation keeps it. */
  lemma MatchedLineNonEmpty(t: Template, cand: string, line: string)
    requires Matches(t, cand, line)
    ensures |line| >= |cand| + 8
  {
    MatchesCorrect(t, cand, line);
    match t
    case Traditional =>
      var a, r :| Dots(a) && BracketTailShape(r) && line == cand + " " + a + r;
      var b, c, rest :| Dots(b) && Dots(c) && r == " [" + b + "] " + c + rest;
    case Simplified =>
      var a, r :| Dots(a) && BracketTailShape(r) && line == a + " " + cand + r;
      var b, c, rest :| Dots(b) && Dots(c) && r == " [" + b + "] " + c + rest;
  }

  /**
   * A well-formed entry `T S [P] D...` is found under its traditional form in
   * traditional mode and under its simplified form in simplified mode.
   */
  lemma EntryFoundByItsForms(trad: string, simp: string, pinyin: string, rest: string)
    requires trad != [] && NoNewline(trad) && simp != [] && NoNewline(simp)
    requires pinyin != [] && NoNewline(pinyin) && rest != [] && rest[0] != '\n'
    ensures Matches(Traditional, trad, trad + " " + simp + " [" + pinyin + "] " + rest)
    ensures Matches(Simplified, simp, trad + " " + simp + " [" + pinyin + "] " + rest)
  {
    var line := trad + " " + simp + " [" + pinyin + "] " + rest;
    var r := " [" + pinyin + "] " + [rest[0]] + rest[1..];
    assert Dots([rest[0]]);
    assert r == " [" + pinyin + "] " + rest;
    assert BracketTailShape(r);
    assert line == trad + " " + simp + r;
    MatchesCorrect(Traditional, trad, line);
    MatchesCorrect(Simplified, simp, line);
  }

  /**
   * The simplified pattern does not pin the candidate to the second field:
   * the leading `.+?` may run over spaces, so "c" is found in "a b c [d] e",
   * where it is the third field.
   */
  lemma SimplifiedMatchesBeyondSecondField()
    ensures Matches(Simplified, "c", "a b c [d] e")
  {
    var line := "a b c [d] e";
    assert line[..3] == "a b" && line[3..5] == " c";
    var r := line[5..];
    assert r == " [d] e";
    assert r[..2] == " [" && r[3..5] == "] " && r[..6] == " [d] e";
    assert HasAt(r, 3, "] ") && NoNewline(r[..6]);
    assert BracketTail(r);
    assert NoNewline(line[..3]) && HasAt(line, 3, " c");
  }
}
