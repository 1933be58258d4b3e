/**
 * Dictionary lookup with deduplication and the aggregation of lookups per
 * start position, as pure functions of the state the source mutates: the
 * `search` list of candidates already looked up and the insertion-ordered
 * `translated_dictionary_entries`.
 */
module Search {
  import opened Base
  import opened Pattern
  import opened Expansion

  // ---------------------------------------------------------------------------
  // One lookup
  // ---------------------------------------------------------------------------

  /** The dictionary lines the pattern built from `cand` matches, in file order. */
  function MatchingLines(dict: seq<string>, t: Template, cand: string): (r: seq<string>)
    ensures |r| <= |dict|
    ensures forall line :: line in r <==> line in dict && Matches(t, cand, line)
    decreases |dict|
  {
    if dict == [] then []
    else
      var last := dict[|dict| - 1];
      MatchingLines(dict[..|dict| - 1], t, cand) + (if Matches(t, cand, last) then [last] else [])
  }

  /** Scanning two parts of the dictionary one after the other: the result keeps file order. */
  lemma {:induction false} MatchingLinesAppend(a: seq<string>, b: seq<string>, t: Template, cand: string)
    ensures MatchingLines(a + b, t, cand) == MatchingLines(a, t, cand) + MatchingLines(b, t, cand)
    decreases |b|
  {
    if b == [] {
      assert a + b == a;
    } else {
      var b' := b[..|b| - 1];
      assert (a + b)[..|a + b| - 1] == a + b';
      assert (a + b)[|a + b| - 1] == b[|b| - 1];
      MatchingLinesAppend(a, b', t, cand);
    }
  }

  /** No matching line is dropped and no other line is added: a matching line occurs as often as in the file. */
  lemma {:induction false} MatchingLinesCount(dict: seq<string>, t: Template, cand: string, line: string)
    ensures multiset(MatchingLines(dict, t, cand))[line] ==
              if Matches(t, cand, line) then multiset(dict)[line] else 0
    decreases |dict|
  {
    if dict != [] {
      var init := dict[..|dict| - 1];
      MatchingLinesCount(init, t, cand, line);
      assert dict == init + [dict[|dict| - 1]];
    }
  }

  /** Every matched line is non-empty. */
  lemma MatchingLinesNonEmpty(dict: seq<string>, t: Template, cand: string)
    ensures forall line | line in MatchingLines(dict, t, cand) :: line != ""
  {
    forall line | line in MatchingLines(dict, t, cand) ensures line != "" {
      MatchedLineNonEmpty(t, cand, line);
    }
  }

  /** The outcome of lookups: the `search` list afterwards and one result per candidate. */
  datatype Lookups = Lookups(search: seq<string>, results: seq<Option<seq<string>>>)

  /**
   * `_search_character_in_dictionary` as a function of `search`: a candidate
   * already in `search` yields None and leaves it alone; any other is appended
   * once and yields its matching lines.
   */
  function Lookup(search: seq<string>, cand: string, dict: seq<string>, t: Template): (r: Lookups)
    ensures |r.results| == 1 && search <= r.search && cand in r.search
    ensures r.results[0].None? <==> cand in search
    ensures r.search == search <==> cand in search
  {
    if cand in search then Lookups(search, [None])
    else Lookups(search + [cand], [Some(MatchingLines(dict, t, cand))])
  }

  /** `pool.map(self._search_character_in_dictionary, cands)`, run in order. */
  function LookupAll(search: seq<string>, cands: seq<string>, dict: seq<string>, t: Template): Lookups
    decreases |cands|
  {
    if cands == [] then Lookups(search, [])
    else
      var before := LookupAll(search, cands[..|cands| - 1], dict, t);
      var one := Lookup(before.search, cands[|cands| - 1], dict, t);
      Lookups(one.search, before.results + one.results)
  }

  /** The strings of a list that are not empty: the `if item` filter. */
  function NonEmptyLines(lines: seq<string>): seq<string>
    decreases |lines|
  {
    if lines == [] then []
    else
      var last := lines[|lines| - 1];
      NonEmptyLines(lines[..|lines| - 1]) + (if last != "" then [last] else [])
  }

  /** `[item for sublist in result if sublist for item in sublist if item]`. */
  function Flatten(results: seq<Option<seq<string>>>): seq<string>
    decreases |results|
  {
    if results == [] then []
    else
      Flatten(results[..|results| - 1]) +
      match results[|results| - 1]
      case None => []
      case Some(lines) => NonEmptyLines(lines)
  }

  lemma {:induction false} NonEmptyLinesKeepsAll(lines: seq<string>)
    requires forall line | line in lines :: line != ""
    ensures NonEmptyLines(lines) == lines
    decreases |lines|
  {
    if lines != [] {
      var init, last := lines[..|lines| - 1], lines[|lines| - 1];
      assert forall line | line in init :: line in lines;
      assert last in lines;
      NonEmptyLinesKeepsAll(init);
      assert lines == init + [last];
    }
  }

  /** The matches of one candidate when `seen` holds what was looked up before it: nothing if it is a repeat. */
  function Contribution(cand: string, seen: set<string>, dict: seq<string>, t: Template): seq<string> {
    if cand in seen then [] else MatchingLines(dict, t, cand)
  }

  /**
   * The reference reading of one position's entry: candidate by candidate, the
   * matches of each one that was not looked up before, neither earlier
   * (`seen`) nor earlier at this position.
   */
  function Contributions(cands: seq<string>, seen: set<string>, dict: seq<string>, t: Template): seq<string> {
    Concat(ContributionList(cands, seen, dict, t))
  }

  /** The contribution of each candidate, in order. */
  function ContributionList(cands: seq<string>, seen: set<string>, dict: seq<string>, t: Template): seq<seq<string>> {
    seq(|cands|, i requires 0 <= i < |cands| => Contribution(cands[i], seen + Elements(cands[..i]), dict, t))
  }

  /** The contributions of all but the last candidate do not depend on the last. */
  lemma ContributionListPrefix(cands: seq<string>, seen: set<string>, dict: seq<string>, t: Template)
    requires cands != []
    ensures ContributionList(cands, seen, dict, t)[..|cands| - 1] == ContributionList(cands[..|cands| - 1], seen, dict, t)
  {
    var init := cands[..|cands| - 1];
    forall i | 0 <= i < |cands| - 1
      ensures ContributionList(cands, seen, dict, t)[i] == ContributionList(init, seen, dict, t)[i]
    {
      assert init[..i] == cands[..i];
    }
  }

  lemma ContributionsSnoc(cands: seq<string>, seen: set<string>, dict: seq<string>, t: Template)
    requires cands != []
    ensures Contributions(cands, seen, dict, t) ==
              Contributions(cands[..|cands| - 1], seen, dict, t) +
              Contribution(cands[|cands| - 1], seen + Elements(cands[..|cands| - 1]), dict, t)
  {
    var whole := ContributionList(cands, seen, dict, t);
    ContributionListPrefix(cands, seen, dict, t);
    assert Concat(whole) == Concat(whole[..|whole| - 1]) + whole[|whole| - 1];
  }

  /** Looking up a position's candidates: one result each, and `search` grows by exactly the candidates. */
  lemma {:induction false} LookupAllSearch(search: seq<string>, cands: seq<string>, dict: seq<string>, t: Template)
    ensures |LookupAll(search, cands, dict, t).results| == |cands|
    ensures search <= LookupAll(search, cands, dict, t).search
    ensures Elements(LookupAll(search, cands, dict, t).search) == Elements(search) + Elements(cands)
    decreases |cands|
  {
    if cands != [] {
      var init := cands[..|cands| - 1];
      var last := cands[|cands| - 1];
      LookupAllSearch(search, init, dict, t);
      var before := LookupAll(search, init, dict, t).search;
      assert Elements(cands) == Elements(init) + {last} by { assert cands == init + [last]; }
      assert Elements(before + [last]) == Elements(before) + {last};
    }
  }

  /** A candidate is looked up (appended to `search` once) only when it is new; so no string enters twice. */
  lemma {:induction false} LookupAllDistinct(search: seq<string>, cands: seq<string>, dict: seq<string>, t: Template)
    requires Distinct(search)
    ensures Distinct(LookupAll(search, cands, dict, t).search)
    decreases |cands|
  {
    if cands != [] {
      LookupAllDistinct(search, cands[..|cands| - 1], dict, t);
    }
  }

  /**
   * The j-th result: None exactly when the candidate is already in `search`
   * or occurs earlier in the list, its matching lines otherwise.
   */
  lemma {:induction false} LookupAllResult(search: seq<string>, cands: seq<string>, dict: seq<string>, t: Template,
                                           j: nat)
    requires j < |cands|
    ensures |LookupAll(search, cands, dict, t).results| == |cands|
    ensures LookupAll(search, cands, dict, t).results[j] ==
              if cands[j] in search || cands[j] in cands[..j] then None
              else Some(MatchingLines(dict, t, cands[j]))
    decreases |cands|
  {
    var n := |cands|;
    var init := cands[..n - 1];
    LookupAllSearch(search, init, dict, t);
    var before := LookupAll(search, init, dict, t);
    if j == n - 1 {
      assert init == cands[..j];
      assert cands[j] in before.search <==> cands[j] in Elements(search) + Elements(init);
    } else {
      LookupAllResult(search, init, dict, t, j);
      assert init[..j] == cands[..j];
      assert (before.results + Lookup(before.search, cands[n - 1], dict, t).results)[j] == before.results[j];
    }
  }

  /** What one lookup adds to the flattened results: its lines when it was made, nothing otherwise. */
  lemma LookupFlatten(search: seq<string>, cand: string, dict: seq<string>, t: Template)
    ensures Flatten(Lookup(search, cand, dict, t).results) == Contribution(cand, Elements(search), dict, t)
  {
    var results := Lookup(search, cand, dict, t).results;
    assert results[..0] == [];
    if cand !in search {
      MatchingLinesNonEmpty(dict, t, cand);
      NonEmptyLinesKeepsAll(MatchingLines(dict, t, cand));
    }
  }

  lemma FlattenAppend(a: seq<Option<seq<string>>>, b: seq<Option<seq<string>>>)
    requires |b| == 1
    ensures Flatten(a + b) == Flatten(a) + Flatten(b)
  {
    assert (a + b)[..|a|] == a;
    assert b[..0] == [];
  }

  /** The flattened results of a position's lookups are its contributions. */
  lemma {:induction false} LookupAllFlatten(search: seq<string>, cands: seq<string>, dict: seq<string>, t: Template)
    ensures Flatten(LookupAll(search, cands, dict, t).results) == Contributions(cands, Elements(search), dict, t)
    decreases |cands|
  {
    if cands != [] {
      var n := |cands|;
      var init, last := cands[..n - 1], cands[n - 1];
      LookupAllFlatten(search, init, dict, t);
      LookupAllSearch(search, init, dict, t);
      var before := LookupAll(search, init, dict, t);
      var one := Lookup(before.search, last, dict, t);
      LookupFlatten(before.search, last, dict, t);
      FlattenAppend(before.results, one.results);
      ContributionsSnoc(cands, Elements(search), dict, t);
    }
  }

  // ---------------------------------------------------------------------------
  // Candidates that stand for themselves in a pattern
  // ---------------------------------------------------------------------------

  /** Every candidate of a list is free of regular-expression metacharacters. */
  ghost predicate AllMetaFree(cands: seq<string>) {
    forall i | 0 <= i < |cands| :: MetaFree(cands[i])
  }

  /** Every candidate of the map is free of regular-expression metacharacters. */
  ghost predicate ListsMetaFree(lists: map<nat, seq<string>>) {
    forall k | k in lists :: AllMetaFree(lists[k])
  }

  /** A candidate extended by a character that is not a metacharacter is still free of them. */
  lemma MetaFreeSnoc(cand: string, c: char)
    requires MetaFree(cand) && !IsRegexMeta(c)
    ensures MetaFree(cand + [c])
  {
    forall k | 0 <= k < |cand| + 1 ensures !IsRegexMeta((cand + [c])[k]) {
      if k < |cand| { assert (cand + [c])[k] == cand[k]; }
    }
  }

  /** Extending a list by its last candidate and such a character keeps it free of metacharacters. */
  lemma ExtendedMetaFree(l: seq<string>, c: char)
    requires l != [] && AllMetaFree(l) && !IsRegexMeta(c)
    ensures AllMetaFree(Extended(l, c))
  {
    MetaFreeSnoc(l[|l| - 1], c);
    var e := Extended(l, c);
    forall i | 0 <= i < |e| ensures MetaFree(e[i]) {
      if i < |l| { assert e[i] == l[i]; }
    }
  }

  /** The loop over the last three keys keeps every candidate free of metacharacters. */
  lemma ExtendAllMetaFree(lists: map<nat, seq<string>>, ks: seq<nat>, c: char)
    requires Extendable(lists, ks) && ListsMetaFree(lists) && !IsRegexMeta(c)
    ensures ListsMetaFree(ExtendAll(lists, ks, c))
  {
    var r := ExtendAll(lists, ks, c);
    forall k | k in r ensures AllMetaFree(r[k]) {
      ExtendAllAt(lists, ks, c, k);
      if k in ks {
        var i :| 0 <= i < |ks| && ks[i] == k;
        ExtendedMetaFree(lists[k], c);
      }
    }
  }

  /** A step with a character that is not a metacharacter keeps every candidate free of them. */
  lemma StepMetaFree(s: SmartList, key: nat, c: char)
    requires WellFormed(s) && ListsMetaFree(s.lists) && !IsRegexMeta(c)
    ensures ListsMetaFree(Step(s, key, c).lists)
  {
    LastThreeExtendable(s);
    var lists := ExtendAll(s.lists, LastThree(s.order), c);
    ExtendAllMetaFree(s.lists, LastThree(s.order), c);
    assert MetaFree([c]);
    if key in lists {
      var l := lists[key] + [[c]];
      assert AllMetaFree(lists[key]);
      forall i | 0 <= i < |l| ensures MetaFree(l[i]) {
        if i < |lists[key]| { assert l[i] == lists[key][i]; }
      }
    }
  }

  /** Expanding a text free of metacharacters keeps every candidate of the map free of them. */
  lemma {:induction false} ExpandMetaFree(s: SmartList, text: string)
    requires WellFormed(s) && ListsMetaFree(s.lists) && MetaFree(text)
    ensures ListsMetaFree(ExpandFrom(s, text).lists)
    decreases |text|
  {
    if text != [] {
      var init := text[..|text| - 1];
      assert MetaFree(init) by {
        forall k | 0 <= k < |init| ensures !IsRegexMeta(init[k]) { assert init[k] == text[k]; }
      }
      ExpandMetaFree(s, init);
      StepMetaFree(ExpandFrom(s, init), |text| - 1, text[|text| - 1]);
    }
  }

  // ---------------------------------------------------------------------------
  // Aggregation over positions
  // ---------------------------------------------------------------------------

  /** The state the search phase updates: `search` and the insertion-ordered `translated_dictionary_entries`. */
  datatype Found = Found(search: seq<string>, keys: seq<nat>, entries: map<nat, seq<string>>)

  /** `translated_dictionary_entries[key] = v`: a new key goes to the end of the insertion order. */
  function Store(f: Found, key: nat, v: seq<string>): Found {
    Found(f.search, if key in f.entries then f.keys else f.keys + [key], f.entries[key := v])
  }

  /** One iteration of `_search_dictionary_via_smart_search`: look up the key's candidates, store the flattened results. */
  function SearchKey(f: Found, key: nat, cands: seq<string>, dict: seq<string>, t: Template): Found {
    var looked := LookupAll(f.search, cands, dict, t);
    Store(f.(search := looked.search), key, Flatten(looked.results))
  }

  /** `SearchKey` given the outcome of its lookups. */
  lemma SearchKeyOf(f: Found, key: nat, cands: seq<string>, dict: seq<string>, t: Template,
                    search: seq<string>, results: seq<Option<seq<string>>>)
    requires Lookups(search, results) == LookupAll(f.search, cands, dict, t)
    ensures SearchKey(f, key, cands, dict, t) ==
              Found(search, if key in f.entries then f.keys else f.keys + [key], f.entries[key := Flatten(results)])
  {
  }

  /** The loop of `_search_dictionary_via_smart_search` after it has visited the keys `order`. */
  function SearchKeys(order: seq<nat>, lists: map<nat, seq<string>>, f: Found, dict: seq<string>, t: Template)
    : Found
    requires forall k | k in order :: k in lists
    decreases |order|
  {
    if order == [] then f
    else
      var k := order[|order| - 1];
      SearchKey(SearchKeys(order[..|order| - 1], lists, f, dict, t), k, lists[k], dict, t)
  }

  /** Visiting the i-th key of `order` is one more `SearchKey`. */
  lemma SearchKeysNext(order: seq<nat>, lists: map<nat, seq<string>>, f: Found, dict: seq<string>, t: Template,
                       i: nat)
    requires (forall k | k in order :: k in lists) && i < |order|
    ensures forall k | k in order[..i] :: k in lists
    ensures forall k | k in order[..i + 1] :: k in lists
    ensures order[i] in lists
    ensures SearchKeys(order[..i + 1], lists, f, dict, t) ==
              SearchKey(SearchKeys(order[..i], lists, f, dict, t), order[i], lists[order[i]], dict, t)
  {
    assert forall k | k in order[..i + 1] :: k in order;
    assert order[..i + 1][..i] == order[..i];
  }


  /** Every candidate listed under the keys `order`. */
  function AllCandidates(order: seq<nat>, lists: map<nat, seq<string>>): set<string>
    requires forall k | k in order :: k in lists
    decreases |order|
  {
    if order == [] then {}
    else AllCandidates(order[..|order| - 1], lists) + Elements(lists[order[|order| - 1]])
  }

  /** Well-formed insertion order of the entries: distinct keys, exactly those of the map. */
  ghost predicate FoundValid(f: Found) {
    Distinct(f.keys) && forall k :: k in f.entries <==> k in f.keys
  }

  /** An entry whose key is not visited is left alone. */
  lemma {:induction false} SearchKeysEntries(order: seq<nat>, lists: map<nat, seq<string>>, f: Found,
                                             dict: seq<string>, t: Template, k: nat)
    requires forall j | j in order :: j in lists
    requires k in f.entries && k !in order
    ensures k in SearchKeys(order, lists, f, dict, t).entries
    ensures SearchKeys(order, lists, f, dict, t).entries[k] == f.entries[k]
    decreases |order|
  {
    if order != [] {
      var init := order[..|order| - 1];
      assert forall j | j in init :: j in order;
      SearchKeysEntries(init, lists, f, dict, t, k);
    }
  }

  /** After the search phase every candidate of every visited key is in `search`, and nothing else was added. */
  lemma {:induction false} SearchKeysSearch(order: seq<nat>, lists: map<nat, seq<string>>, f: Found,
                                            dict: seq<string>, t: Template)
    requires forall k | k in order :: k in lists
    ensures f.search <= SearchKeys(order, lists, f, dict, t).search
    ensures Elements(SearchKeys(order, lists, f, dict, t).search) == Elements(f.search) + AllCandidates(order, lists)
    decreases |order|
  {
    if order != [] {
      var init, k := order[..|order| - 1], order[|order| - 1];
      assert forall j | j in init :: j in order;
      SearchKeysSearch(init, lists, f, dict, t);
      LookupAllSearch(SearchKeys(init, lists, f, dict, t).search, lists[k], dict, t);
    }
  }

  /** The entry of the i-th visited key is its contribution given everything looked up before it. */
  lemma {:induction false} SearchKeysEntryAt(order: seq<nat>, lists: map<nat, seq<string>>, f: Found,
                                             dict: seq<string>, t: Template, i: nat)
    requires Distinct(order) && forall k | k in order :: k in lists
    requires i < |order|
    ensures order[i] in SearchKeys(order, lists, f, dict, t).entries
    ensures SearchKeys(order, lists, f, dict, t).entries[order[i]] ==
              Contributions(lists[order[i]], Elements(f.search) + AllCandidates(order[..i], lists), dict, t)
    decreases |order|
  {
    var n := |order|;
    var init, k := order[..n - 1], order[n - 1];
    assert forall j | j in init :: j in order;
    var f1 := SearchKeys(init, lists, f, dict, t);
    if i == n - 1 {
      SearchKeysSearch(init, lists, f, dict, t);
      LookupAllFlatten(f1.search, lists[k], dict, t);
      assert order[..i] == init;
    } else {
      SearchKeysEntryAt(init, lists, f, dict, t, i);
      assert order[i] != k;
      assert init[..i] == order[..i];
    }
  }

  /** A key has an entry after the search phase exactly when it had one before or was visited. */
  lemma {:induction false} SearchKeysHas(order: seq<nat>, lists: map<nat, seq<string>>, f: Found,
                                         dict: seq<string>, t: Template, k: nat)
    requires forall j | j in order :: j in lists
    ensures k in SearchKeys(order, lists, f, dict, t).entries <==> k in f.entries || k in order
    decreases |order|
  {
    if order != [] {
      var init := order[..|order| - 1];
      assert forall j | j in init :: j in order;
      SearchKeysHas(init, lists, f, dict, t, k);
      assert k in order <==> k in init || k == order[|order| - 1];
    }
  }

  /** Keys not yet in the entries are appended to the insertion order as they are visited. */
  lemma {:induction false} SearchKeysKeys(order: seq<nat>, lists: map<nat, seq<string>>, f: Found,
                                          dict: seq<string>, t: Template)
    requires Distinct(order) && forall k | k in order :: k in lists
    requires forall k | k in order :: k !in f.entries
    ensures SearchKeys(order, lists, f, dict, t).keys == f.keys + order
    decreases |order|
  {
    if order != [] {
      var n := |order|;
      var init, k := order[..n - 1], order[n - 1];
      assert forall j | j in init :: j in order;
      SearchKeysKeys(init, lists, f, dict, t);
      var f1 := SearchKeys(init, lists, f, dict, t);
      assert k !in init;
      SearchKeysHas(init, lists, f, dict, t, k);
      assert SearchKeys(order, lists, f, dict, t) == SearchKey(f1, k, lists[k], dict, t);
      assert SearchKey(f1, k, lists[k], dict, t).keys == f1.keys + [k];
      assert f.keys + init + [k] == f.keys + order;
    }
  }

  /** From entries with no visited key yet, the new insertion order is the old one followed by `order`. */
  lemma SearchKeysOrder(order: seq<nat>, lists: map<nat, seq<string>>, f: Found, dict: seq<string>, t: Template)
    requires Distinct(order) && forall k | k in order :: k in lists
    requires FoundValid(f) && forall k | k in order :: k !in f.entries
    ensures FoundValid(SearchKeys(order, lists, f, dict, t))
    ensures SearchKeys(order, lists, f, dict, t).keys == f.keys + order
  {
    SearchKeysKeys(order, lists, f, dict, t);
    forall k ensures k in SearchKeys(order, lists, f, dict, t).entries <==> k in f.entries || k in order {
      SearchKeysHas(order, lists, f, dict, t, k);
    }
    var keys := f.keys + order;
    forall i, j | 0 <= i < j < |keys| ensures keys[i] != keys[j] {
      if i < |f.keys| && |f.keys| <= j {
        assert keys[i] in f.entries && keys[j] in order;
      }
    }
  }

  /** Storing an entry keeps the insertion order well formed. */
  lemma StoreValid(f: Found, key: nat, v: seq<string>)
    requires FoundValid(f)
    ensures FoundValid(Store(f, key, v))
    ensures Store(f, key, v).entries[key] == v
  {
  }

  /** The search phase keeps the insertion order well formed, whatever state it starts from. */
  lemma {:induction false} SearchKeysValid(order: seq<nat>, lists: map<nat, seq<string>>, f: Found,
                                           dict: seq<string>, t: Template)
    requires forall k | k in order :: k in lists
    requires FoundValid(f)
    ensures FoundValid(SearchKeys(order, lists, f, dict, t))
    decreases |order|
  {
    if order != [] {
      var init, k := order[..|order| - 1], order[|order| - 1];
      assert forall j | j in init :: j in order;
      SearchKeysValid(init, lists, f, dict, t);
      var f1 := SearchKeys(init, lists, f, dict, t);
      var looked := LookupAll(f1.search, lists[k], dict, t);
      StoreValid(f1.(search := looked.search), k, Flatten(looked.results));
    }
  }

  // ---------------------------------------------------------------------------
  // The whole search for a text
  // ---------------------------------------------------------------------------

  /** The candidates of the positions before p: what has been looked up when position p is reached. */
  ghost function EarlierCandidates(text: string, p: nat): set<string>
    requires p <= |text|
  {
    set q: nat, i: nat | q < p && i < |Candidates(text, q)| :: Candidates(text, q)[i]
  }

  /** The lines of each candidate in `cands`, in order, skipping candidates in `seen`. */
  function FreshMatches(cands: seq<string>, seen: set<string>, dict: seq<string>, t: Template): seq<string> {
    Concat(seq(|cands|, i requires 0 <= i < |cands| =>
      if cands[i] in seen then [] else MatchingLines(dict, t, cands[i])))
  }

  /**
   * The entry of position p as the source computes it: for each candidate at p,
   * in order, its matching lines, unless the same string is a candidate of an
   * earlier position, in which case it contributes nothing.
   */
  ghost function ExpectedEntry(text: string, p: nat, dict: seq<string>, t: Template): seq<string>
    requires p <= |text|
  {
    FreshMatches(Candidates(text, p), EarlierCandidates(text, p), dict, t)
  }

  lemma EarlierCandidatesSnoc(text: string, p: nat)
    requires p < |text|
    ensures EarlierCandidates(text, p + 1) == EarlierCandidates(text, p) + Elements(Candidates(text, p))
  {
    var e, e' := EarlierCandidates(text, p), EarlierCandidates(text, p + 1);
    var here := Elements(Candidates(text, p));
    forall x | x in e' ensures x in e + here {
      var q: nat, i: nat :| q < p + 1 && i < |Candidates(text, q)| && x == Candidates(text, q)[i];
      if q == p { assert x in here; } else { assert x in e; }
    }
    forall x | x in here ensures x in e' {
      var i :| 0 <= i < |Candidates(text, p)| && Candidates(text, p)[i] == x;
    }
  }

  lemma {:induction false} AllCandidatesOfExpansion(s: SmartList, text: string, p: nat)
    requires IsExpansionOf(s, text) && p <= |text|
    ensures forall k | k in s.order[..p] :: k in s.lists
    ensures AllCandidates(s.order[..p], s.lists) == EarlierCandidates(text, p)
    decreases p
  {
    assert forall k | k in s.order[..p] :: k < |text|;
    if p > 0 {
      AllCandidatesOfExpansion(s, text, p - 1);
      assert s.order[..p][..p - 1] == s.order[..p - 1];
      assert s.order[..p][p - 1] == p - 1;
      EarlierCandidatesSnoc(text, p - 1);
    }
  }

  /** Within one position the candidates differ in length, so none repeats an earlier one there. */
  lemma ContributionsOfCandidates(text: string, p: nat, seen: set<string>, dict: seq<string>, t: Template)
    requires p <= |text|
    ensures Contributions(Candidates(text, p), seen, dict, t) == FreshMatches(Candidates(text, p), seen, dict, t)
  {
    var cands := Candidates(text, p);
    CandidatesDistinct(text, p);
    var a := seq(|cands|, i requires 0 <= i < |cands| => Contribution(cands[i], seen + Elements(cands[..i]), dict, t));
    var b := seq(|cands|, i requires 0 <= i < |cands| => if cands[i] in seen then [] else MatchingLines(dict, t, cands[i]));
    forall i | 0 <= i < |cands| ensures a[i] == b[i] {
      assert cands[i] !in cands[..i];
    }
    assert a == b;
    assert ContributionList(cands, seen, dict, t) == a;
    assert FreshMatches(cands, seen, dict, t) == Concat(b);
  }

  /** The entry of one position after the search over the expansion of a text. */
  lemma SearchExpansionEntry(s: SmartList, text: string, dict: seq<string>, t: Template, p: nat)
    requires IsExpansionOf(s, text) && p < |text|
    ensures forall k | k in s.order :: k in s.lists
    ensures p in SearchKeys(s.order, s.lists, Found([], [], map[]), dict, t).entries
    ensures SearchKeys(s.order, s.lists, Found([], [], map[]), dict, t).entries[p] == ExpectedEntry(text, p, dict, t)
  {
    ExpansionWellFormed(s, text);
    var f0 := Found([], [], map[]);
    SearchKeysEntryAt(s.order, s.lists, f0, dict, t, p);
    assert s.order[p] == p;
    AllCandidatesOfExpansion(s, text, p);
    var earlier := EarlierCandidates(text, p);
    assert Elements(f0.search) + AllCandidates(s.order[..p], s.lists) == earlier;
    ContributionsOfCandidates(text, p, earlier, dict, t);
    calc {
      SearchKeys(s.order, s.lists, f0, dict, t).entries[p];
      Contributions(s.lists[p], earlier, dict, t);
      Contributions(Candidates(text, p), earlier, dict, t);
      FreshMatches(Candidates(text, p), earlier, dict, t);
    }
  }

  /**
   * The whole search on a text, from an empty map, an empty `search` list and
   * no entries: the entries' keys are 0..n-1 in insertion order, and position
   * p holds exactly the lines its fresh candidates match, in candidate order.
   */
  lemma SearchTextCorrect(text: string, dict: seq<string>, t: Template)
    ensures WellFormed(ExpandFrom(SmartList([], map[]), text))
    ensures var s := ExpandFrom(SmartList([], map[]), text);
      var f := SearchKeys(s.order, s.lists, Found([], [], map[]), dict, t);
      && f.keys == Range(|text|)
      && (forall k: nat :: k in f.entries <==> k < |text|)
      && (forall p: nat | p < |text| :: f.entries[p] == ExpectedEntry(text, p, dict, t))
  {
    var s := ExpandFrom(SmartList([], map[]), text);
    ExpandCorrect(text);
    ExpansionWellFormed(s, text);
    var f0 := Found([], [], map[]);
    SearchKeysOrder(s.order, s.lists, f0, dict, t);
    forall p: nat | p < |text| ensures p in s.order {
      assert s.order[p] == p;
    }
    forall p: nat | p < |text|
      ensures SearchKeys(s.order, s.lists, f0, dict, t).entries[p] == ExpectedEntry(text, p, dict, t)
    {
      SearchExpansionEntry(s, text, dict, t, p);
    }
  }
}
