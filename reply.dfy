/**
 * What `response` returns: the entries ordered by start position, rendered as
 * Markdown table rows joined by line breaks, handed back as the JSON values,
 * or given as the raw items in insertion order.
 */
module Reply {
  import opened Base
  import opened Definitions

  // ---------------------------------------------------------------------------
  // `sorted(..., key=lambda item: item[0])`
  // ---------------------------------------------------------------------------

  predicate Sorted(s: seq<nat>) {
    forall i, j | 0 <= i < j < |s| :: s[i] <= s[j]
  }

  /** Insertion of one key after every key not above it, so that equal keys keep their order. */
  function Insert(x: nat, s: seq<nat>): (r: seq<nat>)
    requires Sorted(s)
    ensures Sorted(r) && multiset(r) == multiset(s) + multiset{x}
    decreases |s|
  {
    if s == [] then [x]
    else if x < s[0] then [x] + s
    else
      var tail := Insert(x, s[1..]);
      InsertBehind(x, s, tail);
      [s[0]] + tail
  }

  /** The step of `Insert` that keeps the head in front. */
  lemma InsertBehind(x: nat, s: seq<nat>, tail: seq<nat>)
    requires Sorted(s) && s != [] && s[0] <= x
    requires Sorted(tail) && multiset(tail) == multiset(s[1..]) + multiset{x}
    ensures Sorted([s[0]] + tail) && multiset([s[0]] + tail) == multiset(s) + multiset{x}
  {
    assert s == [s[0]] + s[1..];
    forall m | 0 <= m < |tail| ensures s[0] <= tail[m] {
      assert tail[m] in multiset(tail);
      if tail[m] != x {
        assert tail[m] in s[1..];
      }
    }
  }

  /** The keys in ascending order: a sorted permutation of its input. */
  function SortKeys(s: seq<nat>): (r: seq<nat>)
    ensures Sorted(r) && multiset(r) == multiset(s)
    decreases |s|
  {
    if s == [] then []
    else
      assert s == s[..|s| - 1] + [s[|s| - 1]];
      Insert(s[|s| - 1], SortKeys(s[..|s| - 1]))
  }

  /** The head of a sorted sequence is its least element. */
  lemma SortedHead(a: seq<nat>, x: nat)
    requires Sorted(a) && x in a
    ensures a[0] <= x
  {
    var i :| 0 <= i < |a| && a[i] == x;
  }

  lemma SortedTail(a: seq<nat>)
    requires Sorted(a) && a != []
    ensures Sorted(a[1..])
  {
  }

  lemma MultisetTail(a: seq<nat>)
    requires a != []
    ensures multiset(a[1..]) == multiset(a) - multiset{a[0]}
  {
    assert a == [a[0]] + a[1..];
  }

  /** Two sorted permutations of each other start with the same key, and their tails are again such a pair. */
  lemma SortedSameHead(a: seq<nat>, b: seq<nat>)
    requires Sorted(a) && Sorted(b) && multiset(a) == multiset(b) && a != []
    ensures b != [] && a[0] == b[0]
    ensures Sorted(a[1..]) && Sorted(b[1..]) && multiset(a[1..]) == multiset(b[1..])
  {
    assert a[0] in multiset(b);
    assert b != [];
    assert b[0] in multiset(a);
    SortedHead(a, b[0]);
    SortedHead(b, a[0]);
    MultisetTail(a);
    MultisetTail(b);
    SortedTail(a);
    SortedTail(b);
  }

  /** There is only one sorted permutation of a sequence, so `SortKeys` agrees with any sort. */
  lemma {:induction false} SortedUnique(a: seq<nat>, b: seq<nat>)
    requires Sorted(a) && Sorted(b) && multiset(a) == multiset(b)
    ensures a == b
    decreases |a|
  {
    if a == [] {
      assert |multiset(b)| == 0;
    } else {
      SortedSameHead(a, b);
      SortedUnique(a[1..], b[1..]);
      assert a == [a[0]] + a[1..];
      assert b == [b[0]] + b[1..];
    }
  }

  /** Positions that are already in order stay where they are. */
  lemma SortKeysOfSorted(s: seq<nat>)
    requires Sorted(s)
    ensures SortKeys(s) == s
  {
    SortedUnique(SortKeys(s), s);
  }

  /** The values of the entries, ordered by key: `[item[1] for item in items if item]`. */
  function SortedValues(keys: seq<nat>, entries: map<nat, seq<string>>): (r: seq<seq<string>>)
    requires forall k | k in keys :: k in entries
    ensures |r| == |keys|
  {
    var sorted := SortKeys(keys);
    assert forall i | 0 <= i < |sorted| :: sorted[i] in multiset(keys);
    seq(|sorted|, i requires 0 <= i < |sorted| => entries[sorted[i]])
  }

  /** When the keys were inserted in ascending order, the values come out in insertion order. */
  lemma SortedValuesInOrder(keys: seq<nat>, entries: map<nat, seq<string>>)
    requires forall k | k in keys :: k in entries
    requires Sorted(keys)
    ensures forall i | 0 <= i < |keys| :: SortedValues(keys, entries)[i] == entries[keys[i]]
  {
    SortKeysOfSorted(keys);
  }

  // ---------------------------------------------------------------------------
  // `_response_markdown`
  // ---------------------------------------------------------------------------

  /** One Markdown table row: `| traditional | simplified | pinyin | translation |`. */
  function Row(d: Definition): string {
    "| " + d.traditional + " | " + d.simplified + " | " + d.pinyin + " | " + d.definition + " |"
  }

  /** `_extract_line_to_definitions` applied to each line in turn. */
  function ParseAll(lines: seq<string>): (r: seq<Option<Definition>>)
    ensures |r| == |lines|
    decreases |lines|
  {
    if lines == [] then [] else ParseAll(lines[..|lines| - 1]) + [Parse(lines[|lines| - 1])]
  }

  lemma {:induction false} ParseAllAt(lines: seq<string>, i: nat)
    requires i < |lines|
    ensures ParseAll(lines)[i] == Parse(lines[i])
    decreases |lines|
  {
    if i < |lines| - 1 {
      ParseAllAt(lines[..|lines| - 1], i);
    }
  }

  lemma ParseAllSnoc(lines: seq<string>, line: string)
    ensures ParseAll(lines + [line]) == ParseAll(lines) + [Parse(line)]
  {
    assert (lines + [line])[..|lines|] == lines;
  }

  /**
   * The rows of the read lines in order, or None as soon as a line fails to
   * read (the loop stops at the exception): the rows exist exactly when every
   * line reads, and then there is one row per line.
   */
  function Rows(ps: seq<Option<Definition>>): (r: Option<seq<string>>)
    ensures r.Some? <==> forall i | 0 <= i < |ps| :: ps[i].Some?
    ensures r.Some? ==> |r.value| == |ps|
    ensures r.Some? ==> forall i | 0 <= i < |ps| :: r.value[i] == Row(ps[i].value)
    decreases |ps|
  {
    if ps == [] then Some([])
    else
      var init := ps[..|ps| - 1];
      assert forall i | 0 <= i < |init| :: init[i] == ps[i];
      match Rows(init)
      case None => None
      case Some(rows) =>
        match ps[|ps| - 1]
        case None => None
        case Some(d) => Some(rows + [Row(d)])
  }

  /** Reading one more line adds its row. */
  lemma RowsSnoc(a: seq<Option<Definition>>, d: Definition)
    requires Rows(a).Some?
    ensures Rows(a + [Some(d)]) == Some(Rows(a).value + [Row(d)])
  {
    assert (a + [Some(d)])[..|a|] == a;
  }

  /** `'\n'.join(rows)`. */
  function Join(rows: seq<string>): string
    decreases |rows|
  {
    if rows == [] then ""
    else if |rows| == 1 then rows[0]
    else rows[0] + "\n" + Join(rows[1..])
  }

  /** `text.split('\n')`: the pieces between line breaks, at least one. */
  function SplitLines(text: string): (r: seq<string>)
    ensures |r| >= 1
    ensures forall i | 0 <= i < |r| :: '\n' !in r[i]
    decreases |text|
  {
    var e := LineEnd(text, 0);
    assert forall c | c in text[..e] :: c != '\n';
    if e == |text| then [text]
    else [text[..e]] + SplitLines(text[e + 1..])
  }

  /** Splitting joined rows at the line breaks gives back the rows when none of them holds a line break. */
  lemma {:induction false} SplitJoin(rows: seq<string>)
    requires rows != []
    requires forall i | 0 <= i < |rows| :: '\n' !in rows[i]
    ensures SplitLines(Join(rows)) == rows
    decreases |rows|
  {
    var text := Join(rows);
    var first := rows[0];
    var e := LineEnd(text, 0);
    if |rows| == 1 {
      assert e == |text|;
    } else {
      var tail := Join(rows[1..]);
      assert text == first + "\n" + tail;
      assert text[|first|] == '\n';
      assert e == |first|;
      assert text[..e] == first && text[e + 1..] == tail;
      SplitJoin(rows[1..]);
    }
  }

  /** A row holds no line break when its fields have the shape of read fields. */
  lemma RowNoBreak(d: Definition)
    requires FieldsShape(d)
    ensures '\n' !in Row(d)
  {
    assert IsWhitespace('\n');
  }

  /** `_response_markdown(values)`: the rows of every line of every value, in order, joined by line breaks. */
  function Markdown(values: seq<seq<string>>): Option<string> {
    match Rows(ParseAll(Concat(values)))
    case None => None
    case Some(rows) => Some(Join(rows))
  }

  /** The Markdown text exists exactly when every line reads; no lines give the empty text. */
  lemma MarkdownExists(values: seq<seq<string>>)
    ensures Markdown(values).Some? <==> Rows(ParseAll(Concat(values))).Some?
    ensures Markdown(values).Some? <==> forall i | 0 <= i < |Concat(values)| :: ParseAll(Concat(values))[i].Some?
    ensures Markdown(values).Some? && Concat(values) == [] ==> Markdown(values).value == ""
  {
    var ps := ParseAll(Concat(values));
    assert Markdown(values).Some? <==> Rows(ps).Some?;
    assert Rows(ps).Some? <==> forall i | 0 <= i < |ps| :: ps[i].Some?;
    if Concat(values) == [] {
      assert ps == [];
    }
  }

  /** The lines of the Markdown text are the rows of the lines read, one per line and in order. */
  lemma MarkdownLines(values: seq<seq<string>>)
    requires Markdown(values).Some? && Concat(values) != []
    ensures var ps := ParseAll(Concat(values));
      var split := SplitLines(Markdown(values).value);
      |split| == |ps| && forall i | 0 <= i < |ps| :: split[i] == Row(ps[i].value)
  {
    var lines := Concat(values);
    var ps := ParseAll(lines);
    var r := Rows(ps);
    forall i | 0 <= i < |r.value| ensures '\n' !in r.value[i] {
      ParseAllAt(lines, i);
      ParsedShape(lines[i]);
      RowNoBreak(ps[i].value);
    }
    SplitJoin(r.value);
  }

  /** A dictionary line with readable fields becomes the row of those fields. */
  lemma MarkdownOfLine(d: Definition, rest: string)
    requires Readable(d)
    requires rest == [] || rest[0] == '\n'
    ensures Markdown([[Line(d) + rest]]) == Some(Row(d))
  {
    var line := Line(d) + rest;
    ParseLine(d, rest);
    assert Concat([[line]]) == [line] by {
      assert [[line]][..0] == [];
    }
    assert ParseAll([line]) == [Some(d)] by {
      ParseAllSnoc([], line);
      assert [] + [line] == [line];
    }
    RowsSnoc([], d);
    assert [] + [Some(d)] == [Some(d)];
  }

  // ---------------------------------------------------------------------------
  // `response`
  // ---------------------------------------------------------------------------

  /** The three kinds of answer `response` gives. */
  datatype Reply =
    | MarkdownReply(text: Option<string>)
    | JsonReply(values: seq<seq<string>>)
    | ItemsReply(items: seq<(nat, seq<string>)>)

  /** `response` for the entries `entries` inserted in the order `keys`. */
  function ReplyFor(responseType: string, keys: seq<nat>, entries: map<nat, seq<string>>): (r: Reply)
    requires forall k | k in keys :: k in entries
    ensures r.MarkdownReply? <==> responseType == "markdown" || responseType == "m"
    ensures r.JsonReply? <==> responseType == "json"
    ensures r.MarkdownReply? ==> r.text == Markdown(SortedValues(keys, entries))
    ensures r.JsonReply? ==> r.values == SortedValues(keys, entries)
    ensures r.ItemsReply? ==> |r.items| == |keys|
    ensures r.ItemsReply? ==> forall i | 0 <= i < |keys| :: r.items[i] == (keys[i], entries[keys[i]])
  {
    var values := SortedValues(keys, entries);
    if responseType in ["markdown", "m"] then MarkdownReply(Markdown(values))
    else if responseType in ["json"] then JsonReply(values)
    else ItemsReply(seq(|keys|, i requires 0 <= i < |keys| => (keys[i], entries[keys[i]])))
  }
}
