/**
 * The class `Chinese2WordList`: its constructor expands the text into
 * smart-search candidates and looks every candidate up in the dictionary;
 * `response` renders the entries found. The state the source mutates lives in
 * class attributes, which every instance of the class shares; here they are
 * the object `ClassAttributes` that each instance is given, so two instances
 * given the same object behave as two instances of the Python class do.
 */
module WordList {
  import opened Base
  import opened Pattern
  import opened Expansion
  import opened Search
  import opened Definitions
  import opened Reply

  /** The dictionary file for Dutch. */
  const DutchDictionary: string := "dictionary/cndict_1_0_ts_utf-8_mdbg.txt"
  /** The dictionary file for every other language. */
  const EnglishDictionary: string := "dictionary/cedict_1_0_ts_utf-8_mdbg.txt"

  /**
   * The mutable class attributes of `Chinese2WordList`: the insertion-ordered
   * `smart_search_characters` (keys `order`, values `lists`), the `search`
   * list, and the insertion-ordered `translated_dictionary_entries` (keys
   * `entryKeys`, values `entries`).
   */
  class ClassAttributes {
    var order: seq<nat>
    var lists: map<nat, seq<string>>
    var search: seq<string>
    var entryKeys: seq<nat>
    var entries: map<nat, seq<string>>

    /** The attributes as the class statement creates them: two empty dictionaries and an empty list. */
    constructor ()
      ensures order == [] && lists == map[] && search == []
      ensures entryKeys == [] && entries == map[]
      ensures Valid()
    {
      order, lists, search := [], map[], [];
      entryKeys, entries := [], map[];
    }

    /** `smart_search_characters` as a value. */
    function Smart(): SmartList
      reads this
    {
      SmartList(order, lists)
    }

    /** `search` and `translated_dictionary_entries` as a value. */
    function Results(): Found
      reads this
    {
      Found(search, entryKeys, entries)
    }

    /**
     * Both dictionaries keep their insertion order, every candidate list is
     * non-empty, and every candidate is free of regular-expression metacharacters.
     */
    ghost predicate Valid()
      reads this
    {
      WellFormed(Smart()) && ListsMetaFree(lists) && FoundValid(Results())
    }
  }

  class Chinese2WordList {
    const characterType: string
    const responseType: string
    const language: string
    /** The lines of the file at a path, each with its line break, as iterating over the open file gives them. */
    const readLines: string -> seq<string>
    /** The class attributes this instance reads and updates. */
    const attributes: ClassAttributes

    /** `_get_dictionary_location`: the Dutch dictionary exactly for the language "nl". */
    function DictionaryLocation(): (path: string)
      ensures path == DutchDictionary <==> language == "nl"
      ensures path == EnglishDictionary <==> language != "nl"
    {
      if language == "nl" then DutchDictionary else EnglishDictionary
    }

    /** The lines of the dictionary this instance searches. */
    function Dictionary(): seq<string> {
      readLines(DictionaryLocation())
    }

    /** `_get_character_type_regex`, as the template the candidate is spliced into. */
    function SearchTemplate(): Template {
      TemplateFor(characterType)
    }

    /**
     * `__init__`: stores the settings, then expands the text into the
     * candidate map and looks up every key of the map, continuing from
     * whatever the shared attributes already hold.
     */
    constructor (text: string, characterType: string, responseType: string, language: string,
                 readLines: string -> seq<string>, attributes: ClassAttributes)
      requires attributes.Valid()
      requires MetaFree(text)
      modifies attributes
      ensures this.characterType == characterType && this.responseType == responseType
      ensures this.language == language && this.readLines == readLines && this.attributes == attributes
      ensures attributes.Valid()
      ensures attributes.Smart() == ExpandFrom(old(attributes.Smart()), text)
      ensures attributes.Results() ==
                SearchKeys(attributes.order, attributes.lists, old(attributes.Results()), Dictionary(), SearchTemplate())
    {
      this.characterType := characterType;
      this.responseType := responseType;
      this.language := language;
      this.readLines := readLines;
      this.attributes := attributes;
      new;
      SearchDictionary(text);
    }

    /**
     * `_search_dictionary`: one `_create_smart_search_list` per character,
     * keyed by its index, then the lookups.
     */
    method SearchDictionary(text: string)
      requires attributes.Valid()
      requires MetaFree(text)
      modifies attributes
      ensures attributes.Valid()
      ensures attributes.Smart() == ExpandFrom(old(attributes.Smart()), text)
      ensures attributes.Results() ==
                SearchKeys(attributes.order, attributes.lists, old(attributes.Results()), Dictionary(), SearchTemplate())
    {
      var key := 0;
      while key < |text|
        invariant 0 <= key <= |text|
        invariant WellFormed(old(attributes.Smart()))
        invariant attributes.Smart() == ExpandFrom(old(attributes.Smart()), text[..key])
        invariant attributes.search == old(attributes.search)
        invariant attributes.entryKeys == old(attributes.entryKeys) && attributes.entries == old(attributes.entries)
      {
        assert text[..key + 1][..key] == text[..key];
        CreateSmartSearchList(key, text[key]);
        key := key + 1;
      }
      assert text[..|text|] == text;
      ExpandMetaFree(old(attributes.Smart()), text);
      ghost var f := attributes.Results();
      SearchViaSmartSearch();
      SearchKeysValid(attributes.order, attributes.lists, f, Dictionary(), SearchTemplate());
    }

    /**
     * `_create_smart_search_list(key, c)`: the last three keys of the map, in
     * insertion order, each gain their last candidate extended by `c`; then
     * `c` alone is appended under `key`, which is inserted last when new.
     */
    method CreateSmartSearchList(key: nat, c: char)
      requires WellFormed(attributes.Smart())
      modifies attributes
      ensures attributes.Smart() == Step(old(attributes.Smart()), key, c)
      ensures attributes.search == old(attributes.search)
      ensures attributes.entryKeys == old(attributes.entryKeys) && attributes.entries == old(attributes.entries)
    {
      ExtendLastThree(c);
      if key in attributes.lists {
        attributes.lists := attributes.lists[key := attributes.lists[key] + [[c]]];
      } else {
        attributes.order := attributes.order + [key];
        attributes.lists := attributes.lists[key := [[c]]];
      }
    }

    /** The `for` loop of `_create_smart_search_list`, over the last three keys in insertion order. */
    method ExtendLastThree(c: char)
      requires WellFormed(attributes.Smart())
      modifies attributes
      ensures Extendable(old(attributes.lists), LastThree(old(attributes.order)))
      ensures attributes.lists == ExtendAll(old(attributes.lists), LastThree(old(attributes.order)), c)
      ensures attributes.order == old(attributes.order) && attributes.search == old(attributes.search)
      ensures attributes.entryKeys == old(attributes.entryKeys) && attributes.entries == old(attributes.entries)
    {
      var lastThree := LastThree(attributes.order);
      LastThreeExtendable(attributes.Smart());
      ghost var order, search, keys, entries := attributes.order, attributes.search, attributes.entryKeys, attributes.entries;
      // `list(items())` is a snapshot: each list is read as it was before the loop
      var items := attributes.lists;
      var i := 0;
      while i < |lastThree|
        invariant 0 <= i <= |lastThree|
        invariant attributes.lists == ExtendAll(items, lastThree[..i], c)
        invariant attributes.order == order && attributes.search == search
        invariant attributes.entryKeys == keys && attributes.entries == entries
      {
        var k := lastThree[i];
        ExtendAllNext(items, lastThree, i, c);
        var tmp := items[k];
        tmp := tmp + [tmp[|tmp| - 1] + [c]];
        attributes.lists := attributes.lists[k := tmp];
        i := i + 1;
      }
      assert lastThree[..|lastThree|] == lastThree;
    }

    /**
     * `_search_dictionary_via_smart_search`: for each key of the map in
     * insertion order, look up its candidates and store the flattened
     * results under the key.
     */
    method SearchViaSmartSearch()
      requires forall k | k in attributes.order :: k in attributes.lists
      requires ListsMetaFree(attributes.lists)
      modifies attributes
      ensures attributes.order == old(attributes.order) && attributes.lists == old(attributes.lists)
      ensures attributes.Results() ==
                SearchKeys(attributes.order, attributes.lists, old(attributes.Results()), Dictionary(), SearchTemplate())
    {
      ghost var f := attributes.Results();
      ghost var dict, t := Dictionary(), SearchTemplate();
      var order, lists := attributes.order, attributes.lists;
      assert order[..0] == [];
      var i := 0;
      while i < |order|
        invariant 0 <= i <= |order|
        invariant attributes.order == order && attributes.lists == lists
        invariant forall k | k in order :: k in lists
        invariant ListsMetaFree(lists)
        invariant forall k | k in order[..i] :: k in lists
        invariant attributes.Results() == SearchKeys(order[..i], lists, f, dict, t)
      {
        var k := order[i];
        SearchKeysNext(order, lists, f, dict, t, i);
        StoreKey(k, lists[k]);
        i := i + 1;
      }
      assert order[..|order|] == order;
    }

    /** One iteration of `_search_dictionary_via_smart_search`: look up the candidates of `key`, store their lines under it. */
    method StoreKey(key: nat, cands: seq<string>)
      requires AllMetaFree(cands)
      modifies attributes
      ensures attributes.Results() == SearchKey(old(attributes.Results()), key, cands, Dictionary(), SearchTemplate())
      ensures attributes.order == old(attributes.order) && attributes.lists == old(attributes.lists)
    {
      ghost var f := attributes.Results();
      var result := SearchCandidates(cands);
      var v := Flatten(result);
      if key !in attributes.entries {
        attributes.entryKeys := attributes.entryKeys + [key];
      }
      attributes.entries := attributes.entries[key := v];
      SearchKeyOf(f, key, cands, Dictionary(), SearchTemplate(), attributes.search, result);
    }

    /** `pool.map(self._search_character_in_dictionary, cands)`, the calls made one after another. */
    method SearchCandidates(cands: seq<string>) returns (results: seq<Option<seq<string>>>)
      requires AllMetaFree(cands)
      modifies attributes
      ensures Lookups(attributes.search, results) ==
                LookupAll(old(attributes.search), cands, Dictionary(), SearchTemplate())
      ensures attributes.order == old(attributes.order) && attributes.lists == old(attributes.lists)
      ensures attributes.entryKeys == old(attributes.entryKeys) && attributes.entries == old(attributes.entries)
    {
      results := [];
      var j := 0;
      while j < |cands|
        invariant 0 <= j <= |cands|
        invariant Lookups(attributes.search, results) ==
                    LookupAll(old(attributes.search), cands[..j], Dictionary(), SearchTemplate())
        invariant attributes.order == old(attributes.order) && attributes.lists == old(attributes.lists)
        invariant attributes.entryKeys == old(attributes.entryKeys) && attributes.entries == old(attributes.entries)
      {
        assert cands[..j + 1][..j] == cands[..j];
        var r := SearchCharacterInDictionary(cands[j]);
        results := results + [r];
        j := j + 1;
      }
      assert cands[..|cands|] == cands;
    }

    /**
     * `_search_character_in_dictionary(cand)`: None for a candidate already
     * in `search`; otherwise the candidate is recorded in `search` and the
     * result is every dictionary line the pattern matches, in file order.
     */
    method SearchCharacterInDictionary(cand: string) returns (r: Option<seq<string>>)
      requires MetaFree(cand)
      modifies attributes
      ensures Lookups(attributes.search, [r]) == Lookup(old(attributes.search), cand, Dictionary(), SearchTemplate())
      ensures attributes.order == old(attributes.order) && attributes.lists == old(attributes.lists)
      ensures attributes.entryKeys == old(attributes.entryKeys) && attributes.entries == old(attributes.entries)
    {
      if cand in attributes.search {
        return None;
      }
      attributes.search := attributes.search + [cand];
      var lines := ScanDictionary(Dictionary(), SearchTemplate(), cand);
      return Some(lines);
    }

    /**
     * `response`: the entries' values in ascending key order, as a Markdown
     * table or as JSON, or for any other response type the entries
     * themselves in insertion order.
     */
    method Response() returns (r: Reply)
      requires forall k | k in attributes.entryKeys :: k in attributes.entries
      ensures r == ReplyFor(responseType, attributes.entryKeys, attributes.entries)
    {
      var keys, entries := attributes.entryKeys, attributes.entries;
      var values := SortedValues(keys, entries);
      if responseType in ["markdown", "m"] {
        var text := ResponseMarkdown(values);
        return MarkdownReply(text);
      }
      if responseType in ["json"] {
        return JsonReply(values);
      }
      return ItemsReply(seq(|keys|, i requires 0 <= i < |keys| => (keys[i], entries[keys[i]])));
    }
  }

  /** The `for line in dictionary` loop of `_search_character_in_dictionary`: the matching lines in file order. */
  method ScanDictionary(dictionary: seq<string>, t: Template, cand: string) returns (result: seq<string>)
    ensures result == MatchingLines(dictionary, t, cand)
  {
    result := [];
    var i := 0;
    while i < |dictionary|
      invariant 0 <= i <= |dictionary|
      invariant result == MatchingLines(dictionary[..i], t, cand)
    {
      assert dictionary[..i + 1][..i] == dictionary[..i];
      var line := dictionary[i];
      if Matches(t, cand, line) {
        result := result + [line];
      }
      i := i + 1;
    }
    assert dictionary[..|dictionary|] == dictionary;
  }

  /**
   * `_response_markdown(values)`: one row per line of every value, in order,
   * joined by line breaks; None when a line does not read (the source raises).
   */
  method ResponseMarkdown(values: seq<seq<string>>) returns (text: Option<string>)
    ensures text == Markdown(values)
  {
    var response := [];
    ghost var done: seq<string> := [];
    var i := 0;
    while i < |values|
      invariant 0 <= i <= |values|
      invariant done == Concat(values[..i])
      invariant RowsOf(done, response)
    {
      var items := values[i];
      var j := 0;
      while j < |items|
        invariant 0 <= j <= |items|
        invariant done == Concat(values[..i]) + items[..j]
        invariant RowsOf(done, response)
      {
        var item := items[j];
        var d := Parse(item);
        if d.None? {
          MarkdownFails(values, i, j);
          return None;
        }
        assert items[..j + 1] == items[..j] + [item];
        done, response := done + [item], response + [Row(d.value)];
        j := j + 1;
      }
      assert items[..|items|] == items;
      ConcatSnoc(values, i);
      i := i + 1;
    }
    assert values[..|values|] == values;
    MarkdownOfRows(values, response);
    return Some(Join(response));
  }

  /** `rows` holds, one for one and in order, the rows of `lines`, each of which reads. */
  ghost predicate RowsOf(lines: seq<string>, rows: seq<string>) {
    |rows| == |lines| &&
    forall m | 0 <= m < |lines| :: Parse(lines[m]).Some? && rows[m] == Row(Parse(lines[m]).value)
  }

  /** When every line of the values reads, the Markdown text is their rows joined. */
  lemma MarkdownOfRows(values: seq<seq<string>>, rows: seq<string>)
    requires RowsOf(Concat(values), rows)
    ensures Markdown(values) == Some(Join(rows))
  {
    var lines := Concat(values);
    var ps := ParseAll(lines);
    forall m | 0 <= m < |ps| ensures ps[m] == Parse(lines[m]) {
      ParseAllAt(lines, m);
    }
    assert Rows(ps).Some?;
    assert Rows(ps).value == rows;
  }

  /** A line of a value that does not read leaves the whole Markdown text undefined. */
  lemma MarkdownFails(values: seq<seq<string>>, i: nat, j: nat)
    requires i < |values| && j < |values[i]|
    requires Parse(values[i][j]).None?
    ensures Markdown(values).None?
  {
    ConcatSnoc(values, i);
    ConcatPrefix(values, i + 1);
    var n := |Concat(values[..i])| + j;
    assert Concat(values)[n] == values[i][j];
    ParseAllAt(Concat(values), n);
    MarkdownExists(values);
  }

  /**
   * A fresh instance with attributes of its own: the word list of the text
   * alone, with keys 0..n-1 in order and each position's fresh matches.
   */
  method Create(text: string, characterType: string, responseType: string, language: string,
                readLines: string -> seq<string>) returns (w: Chinese2WordList)
    requires MetaFree(text)
    ensures fresh(w) && fresh(w.attributes)
    ensures w.attributes.Valid()
    ensures w.attributes.Smart() == ExpandFrom(SmartList([], map[]), text)
    ensures w.attributes.Results() ==
              SearchKeys(w.attributes.order, w.attributes.lists, Found([], [], map[]), w.Dictionary(), w.SearchTemplate())
  {
    var attributes := new ClassAttributes();
    w := new Chinese2WordList(text, characterType, responseType, language, readLines, attributes);
  }

  /**
   * What `response` reports for a text searched from empty attributes: one
   * value per character, position p holding the lines of its candidates
   * that no earlier position already looked up.
   */
  lemma ValuesOfText(text: string, dict: seq<string>, t: Template)
    ensures WellFormed(ExpandFrom(SmartList([], map[]), text))
    ensures var s := ExpandFrom(SmartList([], map[]), text);
      var f := SearchKeys(s.order, s.lists, Found([], [], map[]), dict, t);
      && (forall k | k in f.keys :: k in f.entries)
      && |SortedValues(f.keys, f.entries)| == |text|
      && (forall p | 0 <= p < |text| :: SortedValues(f.keys, f.entries)[p] == ExpectedEntry(text, p, dict, t))
  {
    SearchTextCorrect(text, dict, t);
    var s := ExpandFrom(SmartList([], map[]), text);
    var f := SearchKeys(s.order, s.lists, Found([], [], map[]), dict, t);
    ValuesInPositionOrder(|text|, f.entries);
  }

  /** Entries under the positions 0..n-1, inserted in that order, come out position by position. */
  lemma ValuesInPositionOrder(n: nat, entries: map<nat, seq<string>>)
    requires forall k: nat :: k in entries <==> k < n
    ensures forall k | k in Range(n) :: k in entries
    ensures |SortedValues(Range(n), entries)| == n
    ensures forall p | 0 <= p < n :: SortedValues(Range(n), entries)[p] == entries[p]
  {
    var keys := Range(n);
    assert Sorted(keys);
    SortedValuesInOrder(keys, entries);
  }

  /**
   * Two instances built in turn on the same shared attributes, both for the
   * text "a": the second one extends the first one's candidates to "aa" and
   * finds "a" already in `search`, so its entry for position 0 holds the
   * lines of "aa" only, where the first instance's holds the lines of "a".
   */
  lemma SharedAttributesRepeatText(dict: seq<string>, t: Template)
    ensures ExpandFrom(SmartList([], map[]), "a") == SmartList([0], map[0 := ["a"]])
    ensures ExpandFrom(SmartList([0], map[0 := ["a"]]), "a") == SmartList([0], map[0 := ["a", "aa", "a"]])
    ensures SearchKeys([0], map[0 := ["a"]], Found([], [], map[]), dict, t) ==
              Found(["a"], [0], map[0 := MatchingLines(dict, t, "a")])
    ensures SearchKeys([0], map[0 := ["a", "aa", "a"]], Found(["a"], [0], map[0 := MatchingLines(dict, t, "a")]), dict, t) ==
              Found(["a", "aa"], [0], map[0 := MatchingLines(dict, t, "aa")])
  {
    FirstInstanceExpansion();
    SecondInstanceExpansion();
    FirstInstanceSearch(dict, t);
    SecondInstanceSearch(dict, t);
  }

  /** The first instance expands "a" on empty attributes to the single candidate "a". */
  lemma FirstInstanceExpansion()
    ensures ExpandFrom(SmartList([], map[]), "a") == SmartList([0], map[0 := ["a"]])
  {
    assert "a"[..0] == [];
    assert LastThree([]) == [];
  }

  /** The second instance finds key 0 present: its list is extended to "a", "aa" and then given "a" again. */
  lemma SecondInstanceExpansion()
    ensures ExpandFrom(SmartList([0], map[0 := ["a"]]), "a") == SmartList([0], map[0 := ["a", "aa", "a"]])
  {
    var one := SmartList([0], map[0 := ["a"]]);
    assert "a"[..0] == [];
    assert ExpandFrom(one, "a") == Step(one, 0, 'a');
    StepPresentKey(0, "a", 'a');
    assert "a" + ['a'] == "aa" && ['a'] == "a";
  }

  /** A step at the only key of a one-candidate map extends that candidate and appends the character alone. */
  lemma StepPresentKey(k: nat, x: string, c: char)
    ensures WellFormed(SmartList([k], map[k := [x]]))
    ensures Step(SmartList([k], map[k := [x]]), k, c) == SmartList([k], map[k := [x, x + [c], [c]]])
  {
    var s := SmartList([k], map[k := [x]]);
    assert LastThree(s.order) == [k];
    ExtendSingle(k, x, c);
    var lists := ExtendAll(s.lists, [k], c);
    assert k in lists;
    assert lists[k] + [[c]] == [x, x + [c], [c]];
  }

  /** Extending the only key of a one-candidate map. */
  lemma ExtendSingle(k: nat, x: string, c: char)
    ensures Extendable(map[k := [x]], [k])
    ensures ExtendAll(map[k := [x]], [k], c) == map[k := [x, x + [c]]]
  {
    var ks: seq<nat> := [k];
    var lists := map[k := [x]];
    assert ks[..0] == [];
    assert ExtendAll(lists, [], c) == lists;
    assert Extended([x], c) == [x, x + [c]];
  }

  /** The first instance looks "a" up and stores its lines under key 0. */
  lemma FirstInstanceSearch(dict: seq<string>, t: Template)
    ensures SearchKeys([0], map[0 := ["a"]], Found([], [], map[]), dict, t) ==
              Found(["a"], [0], map[0 := MatchingLines(dict, t, "a")])
  {
    SearchSingleKey(0, ["a"], Found([], [], map[]), dict, t);
    LookupNew([], "a", dict, t);
    MatchingLinesNonEmpty(dict, t, "a");
    FlattenFound(MatchingLines(dict, t, "a"));
  }

  /** The second instance skips "a", already searched, looks "aa" up and overwrites key 0 with its lines. */
  lemma SecondInstanceSearch(dict: seq<string>, t: Template)
    ensures SearchKeys([0], map[0 := ["a", "aa", "a"]], Found(["a"], [0], map[0 := MatchingLines(dict, t, "a")]), dict, t) ==
              Found(["a", "aa"], [0], map[0 := MatchingLines(dict, t, "aa")])
  {
    assert "a" != "aa";
    SearchRepeat(0, "a", "aa", MatchingLines(dict, t, "a"), dict, t);
  }

  /** Searching x, y, x under the key that already holds the lines of x, with only x searched. */
  lemma SearchRepeat(k: nat, x: string, y: string, old_lines: seq<string>, dict: seq<string>, t: Template)
    requires x != y
    ensures SearchKeys([k], map[k := [x, y, x]], Found([x], [k], map[k := old_lines]), dict, t) ==
              Found([x, y], [k], map[k := MatchingLines(dict, t, y)])
  {
    SearchSingleKey(k, [x, y, x], Found([x], [k], map[k := old_lines]), dict, t);
    SearchKeyRepeat(k, x, y, old_lines, dict, t);
  }

  /** The one step of `SearchRepeat`: only y is looked up, and its lines replace those of x. */
  lemma SearchKeyRepeat(k: nat, x: string, y: string, old_lines: seq<string>, dict: seq<string>, t: Template)
    requires x != y
    ensures SearchKey(Found([x], [k], map[k := old_lines]), k, [x, y, x], dict, t) ==
              Found([x, y], [k], map[k := MatchingLines(dict, t, y)])
  {
    var f1 := Found([x], [k], map[k := old_lines]);
    var ml := MatchingLines(dict, t, y);
    LookupRepeat([x], x, y, dict, t);
    MatchingLinesNonEmpty(dict, t, y);
    FlattenMiddle(ml);
    var rs: seq<Option<seq<string>>> := [None, Some(ml)] + [None];
    SearchKeyOf(f1, k, [x, y, x], dict, t, [x] + [y], rs);
    assert [x] + [y] == [x, y];
    assert map[k := old_lines][k := ml] == map[k := ml];
  }

  /** Searching a one-key order is one `SearchKey`. */
  lemma SearchSingleKey(k: nat, cands: seq<string>, f: Found, dict: seq<string>, t: Template)
    ensures SearchKeys([k], map[k := cands], f, dict, t) == SearchKey(f, k, cands, dict, t)
  {
    var ks: seq<nat> := [k];
    assert ks[..0] == [];
  }

  /** Looking up one candidate not yet searched. */
  lemma LookupNew(search: seq<string>, x: string, dict: seq<string>, t: Template)
    requires x !in search
    ensures LookupAll(search, [x], dict, t) == Lookups(search + [x], [Some(MatchingLines(dict, t, x))])
  {
    var cands: seq<string> := [x];
    assert cands[..0] == [];
  }

  /** Looking up x, y, x when x has been searched and y has not: only y is searched. */
  lemma LookupRepeat(search: seq<string>, x: string, y: string, dict: seq<string>, t: Template)
    requires x in search && y !in search
    ensures LookupAll(search, [x, y, x], dict, t) ==
              Lookups(search + [y], [None, Some(MatchingLines(dict, t, y))] + [None])
  {
    var cands: seq<string> := [x, y, x];
    var ml := MatchingLines(dict, t, y);
    assert cands[..1][..0] == [];
    assert LookupAll(search, cands[..1], dict, t) == Lookups(search, [None]);
    assert cands[..2][..1] == cands[..1];
    assert LookupAll(search, cands[..2], dict, t) == Lookups(search + [y], [None, Some(ml)]);
    assert cands[..2] == cands[..|cands| - 1];
    assert x in search + [y];
  }

  /** The lines found for one candidate, flattened, are those lines. */
  lemma FlattenFound(lines: seq<string>)
    requires forall line | line in lines :: line != ""
    ensures Flatten([Some(lines)]) == lines
  {
    NonEmptyLinesKeepsAll(lines);
    var rs: seq<Option<seq<string>>> := [Some(lines)];
    assert rs[..0] == [];
  }

  /** Flattening a search hit between two skipped candidates gives the hit's lines. */
  lemma FlattenMiddle(lines: seq<string>)
    requires forall line | line in lines :: line != ""
    ensures Flatten([None, Some(lines)] + [None]) == lines
  {
    NonEmptyLinesKeepsAll(lines);
    var none: seq<Option<seq<string>>> := [None];
    var two: seq<Option<seq<string>>> := [None, Some(lines)];
    assert Flatten(none) == [] by {
      assert none[..0] == [];
    }
    assert Flatten(two) == lines by {
      assert two[..1] == none;
    }
    var rs := two + none;
    assert rs[..|rs| - 1] == two;
  }
}
