/**
 * `_extract_line_to_definitions`: reading the four fields of a CC-CEDICT
 * style line `traditional simplified [pinyin] /definitions/` with the pattern
 * `(\S+)\s(\S+)\s\[(.+?)\]\s\/(.+)\/` as `re.match` applies it: anchored at
 * the start of the line, greedy groups taking as much as they can, the lazy
 * pinyin group as little as it can, the first match in that order winning.
 */
module Definitions {
  import opened Base

  /** `\s` of a `str` pattern: the characters Python's `str.isspace()` accepts. */
  predicate IsWhitespace(c: char) {
    || '\t' <= c <= '\r'
    || '\U{1c}' <= c <= ' '
    || c == '\U{85}' || c == '\U{a0}' || c == '\U{1680}'
    || '\U{2000}' <= c <= '\U{200a}'
    || c == '\U{2028}' || c == '\U{2029}' || c == '\U{202f}' || c == '\U{205f}' || c == '\U{3000}'
  }

  /** `\S+` can cover s[a..b]: no whitespace there. */
  predicate NonSpaceBetween(s: string, a: nat, b: nat)
    requires a <= b <= |s|
  {
    forall m | a <= m < b :: !IsWhitespace(s[m])
  }

  /** `.+` can cover s[a..b]: `.` matches anything but a line break. */
  predicate NoBreakBetween(s: string, a: nat, b: nat)
    requires a <= b <= |s|
  {
    forall m | a <= m < b :: s[m] != '\n'
  }

  /** The four groups of a match: traditional, simplified, pinyin and definition. */
  datatype Definition = Definition(traditional: string, simplified: string, pinyin: string, definition: string)

  /**
   * Where a match puts its groups: group 1 is s[..e1], group 2 is
   * s[e1 + 1..e2], group 3 is s[e2 + 2..i] and group 4 is s[i + 3..k].
   */
  datatype Bounds = Bounds(e1: nat, e2: nat, i: nat, k: nat)

  /** What follows group 3 when it ends at i: `\]\s\/(.+)\/` with the closing slash at k. */
  predicate TailOk(s: string, i: nat, k: nat) {
    && i + 3 < k < |s|
    && s[i] == ']' && IsWhitespace(s[i + 1]) && s[i + 2] == '/'
    && NoBreakBetween(s, i + 3, k) && s[k] == '/'
  }

  /** Every way the pattern can match at the start of s. */
  predicate IsMatch(s: string, b: Bounds) {
    && 0 < b.e1 < |s| && NonSpaceBetween(s, 0, b.e1) && IsWhitespace(s[b.e1])
    && b.e1 + 1 < b.e2 < |s| && NonSpaceBetween(s, b.e1 + 1, b.e2) && IsWhitespace(s[b.e2])
    && b.e2 + 2 < b.i < |s| && s[b.e2 + 1] == '[' && NoBreakBetween(s, b.e2 + 2, b.i)
    && TailOk(s, b.i, b.k)
  }

  /** The groups a match captures. */
  function FieldsAt(s: string, b: Bounds): Definition
    requires IsMatch(s, b)
  {
    Definition(s[..b.e1], s[b.e1 + 1..b.e2], s[b.e2 + 2..b.i], s[b.i + 3..b.k])
  }

  /** Greedy `\S+` from i: the first whitespace at or after i, or the end. */
  function SkipNonSpace(s: string, i: nat): (j: nat)
    requires i <= |s|
    ensures i <= j <= |s| && NonSpaceBetween(s, i, j)
    ensures j < |s| ==> IsWhitespace(s[j])
    decreases |s| - i
  {
    if i == |s| || IsWhitespace(s[i]) then i else SkipNonSpace(s, i + 1)
  }

  /** How far `.` can reach from j: the first line break at or after j, or the end. */
  function LineEnd(s: string, j: nat): (e: nat)
    requires j <= |s|
    ensures j <= e <= |s| && NoBreakBetween(s, j, e)
    ensures e < |s| ==> s[e] == '\n'
    decreases |s| - j
  {
    if j == |s| || s[j] == '\n' then j else LineEnd(s, j + 1)
  }

  /** The last slash at an index strictly between j and e, if there is one. */
  function LastSlash(s: string, j: nat, e: nat): (r: Option<nat>)
    requires e <= |s|
    ensures r.Some? ==> j < r.value < e && s[r.value] == '/'
    ensures forall m | r.Some? && r.value < m < e :: s[m] != '/'
    ensures forall m | r.None? && j < m < e :: s[m] != '/'
    decreases e
  {
    if e <= j + 1 then None
    else if s[e - 1] == '/' then Some(e - 1)
    else LastSlash(s, j, e - 1)
  }

  /** With group 3 ending at i: the closing slash the greedy group 4 settles on, if the rest can match at all. */
  function TailAt(s: string, i: nat): (r: Option<nat>)
    ensures r.Some? ==> TailOk(s, i, r.value)
    ensures forall k: nat | TailOk(s, i, k) :: r.Some? && k <= r.value
  {
    if i + 3 < |s| && s[i] == ']' && IsWhitespace(s[i + 1]) && s[i + 2] == '/' then
      var e := LineEnd(s, i + 3);
      var r := LastSlash(s, i + 3, e);
      assert forall k: nat | TailOk(s, i, k) :: k < e && s[k] == '/';
      r
    else None
  }

  /** The lazy group 3 starting at a: the first end i, trying i, i + 1, ..., for which the rest matches. */
  function FindPinyinEnd(s: string, a: nat, i: nat): (r: Option<nat>)
    requires a < i <= |s| && NoBreakBetween(s, a, i - 1)
    ensures r.Some? ==> i <= r.value < |s| && NoBreakBetween(s, a, r.value) && TailAt(s, r.value).Some?
    ensures forall j | i <= j <= |s| && NoBreakBetween(s, a, j) && TailAt(s, j).Some? :: r.Some? && r.value <= j
    decreases |s| - i
  {
    if i == |s| || s[i - 1] == '\n' then None
    else if TailAt(s, i).Some? then Some(i)
    else FindPinyinEnd(s, a, i + 1)
  }

  /** `pattern.match(line)`: the match Python's backtracking reports first, or None. */
  function Match(s: string): Option<Bounds> {
    var e1 := SkipNonSpace(s, 0);
    if e1 == 0 || e1 == |s| then None
    else
      var e2 := SkipNonSpace(s, e1 + 1);
      if e2 == e1 + 1 || e2 + 3 > |s| || s[e2 + 1] != '[' then None
      else
        match FindPinyinEnd(s, e2 + 2, e2 + 3)
        case None => None
        case Some(i) => Some(Bounds(e1, e2, i, TailAt(s, i).value))
  }

  /** The reported match is a match. */
  lemma MatchSound(s: string)
    requires Match(s).Some?
    ensures IsMatch(s, Match(s).value)
  {
  }

  /**
   * Whenever the pattern can match, `match` reports one, and it is the first
   * in backtracking order: groups 1 and 2 are forced, group 3 is the shortest
   * any match allows, and group 4 the longest with that group 3.
   */
  lemma MatchFirst(s: string, b: Bounds)
    requires IsMatch(s, b)
    ensures Match(s).Some?
    ensures var m := Match(s).value; m.e1 == b.e1 && m.e2 == b.e2 && m.i <= b.i
    ensures var m := Match(s).value; m.i == b.i ==> b.k <= m.k
  {
    var e1 := SkipNonSpace(s, 0);
    assert e1 == b.e1;
    var e2 := SkipNonSpace(s, e1 + 1);
    assert e2 == b.e2;
    assert TailAt(s, b.i).Some?;
  }

  /** `_extract_line_to_definitions`: the four groups, or None where `match[1]` raises because the line does not match. */
  function Parse(line: string): Option<Definition> {
    match Match(line)
    case None => None
    case Some(b) => MatchSound(line); Some(FieldsAt(line, b))
  }

  /** A line is read exactly when the pattern can match it, and then the groups are those of the reported match. */
  lemma ParseCorrect(line: string)
    ensures Parse(line).Some? <==> exists b :: IsMatch(line, b)
    ensures Parse(line).Some? ==> IsMatch(line, Match(line).value)
    ensures Parse(line).Some? ==> Parse(line).value == FieldsAt(line, Match(line).value)
  {
    forall b | IsMatch(line, b) ensures Match(line).Some? { MatchFirst(line, b); }
    if Match(line).Some? {
      MatchSound(line);
    }
  }

  /** What every read line gives: no field is empty, the forms hold no whitespace, no field holds a line break. */
  predicate FieldsShape(d: Definition) {
    && d.traditional != [] && d.simplified != [] && d.pinyin != [] && d.definition != []
    && (forall c | c in d.traditional :: !IsWhitespace(c))
    && (forall c | c in d.simplified :: !IsWhitespace(c))
    && (forall c | c in d.pinyin :: c != '\n')
    && (forall c | c in d.definition :: c != '\n')
  }

  /** The fields `match` reads have the shape of dictionary fields. */
  lemma ParsedShape(line: string)
    requires Parse(line).Some?
    ensures FieldsShape(Parse(line).value)
  {
    var b := Match(line).value;
    MatchSound(line);
    NonSpaceSlice(line, 0, b.e1);
    NonSpaceSlice(line, b.e1 + 1, b.e2);
    NoBreakSlice(line, b.e2 + 2, b.i);
    NoBreakSlice(line, b.i + 3, b.k);
  }

  /** A stretch `\S+` covers holds no whitespace character. */
  lemma NonSpaceSlice(s: string, a: nat, b: nat)
    requires a <= b <= |s| && NonSpaceBetween(s, a, b)
    ensures forall c | c in s[a..b] :: !IsWhitespace(c)
  {
    forall c | c in s[a..b] ensures !IsWhitespace(c) {
      var m :| 0 <= m < b - a && s[a..b][m] == c;
      assert s[a + m] == c;
    }
  }

  /** A stretch `.+` covers holds no line break. */
  lemma NoBreakSlice(s: string, a: nat, b: nat)
    requires a <= b <= |s| && NoBreakBetween(s, a, b)
    ensures forall c | c in s[a..b] :: c != '\n'
  {
    forall c | c in s[a..b] ensures c != '\n' {
      var m :| 0 <= m < b - a && s[a..b][m] == c;
      assert s[a + m] == c;
    }
  }

  /** The dictionary line that carries a definition, with single spaces as separators. */
  function Line(d: Definition): string {
    d.traditional + " " + d.simplified + " [" + d.pinyin + "] /" + d.definition + "/"
  }

  /** Fields a dictionary line can carry so that reading the line gives them back. */
  predicate Readable(d: Definition) {
    FieldsShape(d) && forall c | c in d.pinyin :: c != ']'
  }

  /** Where the groups of a well-formed line lie. */
  function LineBounds(d: Definition): Bounds {
    var e1 := |d.traditional|;
    var e2 := e1 + 1 + |d.simplified|;
    var i := e2 + 2 + |d.pinyin|;
    Bounds(e1, e2, i, i + 3 + |d.definition|)
  }

  /** The characters of a dictionary line, region by region. */
  lemma LineChars(d: Definition, rest: string)
    ensures var s, b := Line(d) + rest, LineBounds(d);
      && |s| == b.k + 1 + |rest|
      && (forall m | 0 <= m < b.e1 :: s[m] == d.traditional[m])
      && s[b.e1] == ' '
      && (forall m | b.e1 + 1 <= m < b.e2 :: s[m] == d.simplified[m - b.e1 - 1])
      && s[b.e2] == ' ' && s[b.e2 + 1] == '['
      && (forall m | b.e2 + 2 <= m < b.i :: s[m] == d.pinyin[m - b.e2 - 2])
      && s[b.i] == ']' && s[b.i + 1] == ' ' && s[b.i + 2] == '/'
      && (forall m | b.i + 3 <= m < b.k :: s[m] == d.definition[m - b.i - 3])
      && s[b.k] == '/'
      && (forall m | b.k + 1 <= m < |s| :: s[m] == rest[m - b.k - 1])
  {
  }

  /** The four fields of a dictionary line lie where `LineBounds` says. */
  lemma LineFields(d: Definition, rest: string)
    ensures var s, b := Line(d) + rest, LineBounds(d);
      && b.k < |s|
      && s[..b.e1] == d.traditional
      && s[b.e1 + 1..b.e2] == d.simplified
      && s[b.e2 + 2..b.i] == d.pinyin
      && s[b.i + 3..b.k] == d.definition
  {
    LineChars(d, rest);
  }

  /** A dictionary line with readable fields is matched with its groups where the fields are. */
  lemma LineMatches(d: Definition, rest: string)
    requires Readable(d)
    ensures IsMatch(Line(d) + rest, LineBounds(d))
  {
    var s, b := Line(d) + rest, LineBounds(d);
    LineChars(d, rest);
    forall m | 0 <= m < b.e1 ensures !IsWhitespace(s[m]) {
      assert d.traditional[m] in d.traditional;
    }
    forall m | b.e1 + 1 <= m < b.e2 ensures !IsWhitespace(s[m]) {
      assert d.simplified[m - b.e1 - 1] in d.simplified;
    }
    forall m | b.i + 3 <= m < b.k ensures s[m] != '\n' {
      assert d.definition[m - b.i - 3] in d.definition;
    }
    forall m | b.e2 + 2 <= m < b.i ensures s[m] != '\n' {
      assert d.pinyin[m - b.e2 - 2] in d.pinyin;
    }
  }

  /** A dictionary line with readable fields has no ']' inside its pinyin. */
  lemma LinePinyinFirst(d: Definition, rest: string)
    requires Readable(d)
    ensures forall j | LineBounds(d).e2 + 2 <= j < LineBounds(d).i :: (Line(d) + rest)[j] != ']'
  {
    LineChars(d, rest);
    var b := LineBounds(d);
    forall j | b.e2 + 2 <= j < b.i ensures (Line(d) + rest)[j] != ']' {
      assert d.pinyin[j - b.e2 - 2] in d.pinyin;
    }
  }

  /**
   * A match whose group 3 holds no ']' and whose closing slash ends the line
   * is the one `match` reports.
   */
  lemma MatchAt(s: string, b: Bounds)
    requires IsMatch(s, b)
    requires forall j | b.e2 + 2 <= j < b.i :: s[j] != ']'
    requires b.k + 1 == |s| || s[b.k + 1] == '\n'
    ensures Match(s) == Some(b)
  {
    MatchFirst(s, b);
    MatchSound(s);
    var m := Match(s).value;
    assert m.i == b.i by {
      assert TailOk(s, m.i, m.k);
    }
    assert m.k == b.k by {
      assert TailOk(s, b.i, m.k);
    }
  }

  /** What follows the closing slash of a dictionary line. */
  lemma LineTail(d: Definition, rest: string)
    requires rest == [] || rest[0] == '\n'
    ensures var s, b := Line(d) + rest, LineBounds(d); b.k + 1 == |s| || s[b.k + 1] == '\n'
  {
    LineChars(d, rest);
  }

  /** On a dictionary line with readable fields, `match` reports the match at the fields' own bounds. */
  lemma LineMatchReported(d: Definition, rest: string)
    requires Readable(d)
    requires rest == [] || rest[0] == '\n'
    ensures Match(Line(d) + rest) == Some(LineBounds(d))
  {
    LineMatches(d, rest);
    LinePinyinFirst(d, rest);
    LineTail(d, rest);
    MatchAt(Line(d) + rest, LineBounds(d));
  }

  /** The fields `match` reports, where a match and its groups are known. */
  lemma ParseGives(s: string, b: Bounds, d: Definition)
    requires Match(s) == Some(b)
    requires b.k < |s|
    requires s[..b.e1] == d.traditional && s[b.e1 + 1..b.e2] == d.simplified
    requires s[b.e2 + 2..b.i] == d.pinyin && s[b.i + 3..b.k] == d.definition
    ensures Parse(s) == Some(d)
  {
    MatchSound(s);
    assert FieldsAt(s, b) == d;
  }

  /**
   * Reading a dictionary line gives back its fields, whatever follows the
   * closing slash on the next line: the line break ends the definition.
   */
  lemma ParseLine(d: Definition, rest: string)
    requires Readable(d)
    requires rest == [] || rest[0] == '\n'
    ensures Parse(Line(d) + rest) == Some(d)
  {
    LineMatchReported(d, rest);
    LineFields(d, rest);
    ParseGives(Line(d) + rest, LineBounds(d), d);
  }
}
