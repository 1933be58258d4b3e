# chinese2wordlist in Dafny

This project models `Chinese2WordList`, a class that turns a Chinese text into a word list. It
works in three phases:

- **Expansion.** Each character of the text starts a list of "smart search" candidates, keyed by
  the character's position. Every new character extends the last candidate of the three most
  recently inserted keys. So, in a text of n characters, position p ends up with the substrings
  that start at p, of every length from 1 to min(4, n − p).
- **Lookup.** Every candidate is looked up in a CC-CEDICT style dictionary file. The file is the
  Dutch dictionary for the language `nl` and the English one otherwise. The lookup uses one of two
  regular-expression templates, chosen by the character type (traditional or simplified). A
  candidate already looked up (the `search` list) yields nothing. The matching lines of a key's
  candidates are flattened into its entry.
- **Reply.** `response` renders the entries in ascending key order. Three forms exist:
  - a Markdown table, one row `| traditional | simplified | pinyin | translation |` per dictionary
    line;
  - the values, as `json.dumps` receives them;
  - for any other response type, the entries in insertion order.

The modules follow the program's structure:

- `Base` holds Option, Distinct, Range and Concat.
- `Pattern` covers `_generate_search_regex` and `_get_character_type_regex`. Each template is
  read two ways: as the regular expression it is, and as the index-based test the verified code
  runs. A lemma shows the two agree.
- `Expansion` covers `_create_smart_search_list`: the candidate map as a value, and what it looks
  like after a whole text.
- `Search` covers `_search_character_in_dictionary`, the pool map, the `if item` filter and
  `_search_dictionary_via_smart_search`, as functions of the state.
- `Definitions` covers `_extract_line_to_definitions`. The pattern
  `(\S+)\s(\S+)\s\[(.+?)\]\s\/(.+)\/` is modelled with Python's backtracking order: greedy
  groups, the lazy pinyin group, first match wins.
- `Reply` covers `sorted`, `response` and `_response_markdown` as functions.
- `WordList` holds:
  - the mutable class attributes, as the class `ClassAttributes`;
  - the class `Chinese2WordList`, whose methods update those attributes step by step with the
    source's loops, each proved against the functions above;
  - the end-to-end lemmas.

The insertion-ordered dictionaries (`defaultdict`) are each a key sequence plus a map. Python's
`\s` is read as `str.isspace()`, which includes U+3000 and the other Unicode spaces.

## Model

| member | source | states |
|---|---|---|
| WordList.ClassAttributes.constructor | chinese2wordlist.py:19-21 | the class attributes start as two empty insertion-ordered dictionaries and an empty `search` list, and are well formed |
| WordList.Chinese2WordList.constructor | chinese2wordlist.py:23-28 | keeps the three settings. The candidate map becomes the expansion of the text from whatever the shared attributes held, and the entries become the lookups of every key in insertion order, continuing from the previous `search` list and entries. The attributes stay well formed, every candidate free of metacharacters |
| WordList.Chinese2WordList.SearchDictionary | chinese2wordlist.py:30-34 | after one candidate step per character (keyed by its index) and the search phase, the map is `ExpandFrom(old map, text)` and the entries are `SearchKeys` over the new map; well-formedness is kept, and so is the absence of metacharacters from the candidates |
| WordList.Chinese2WordList.CreateSmartSearchList | chinese2wordlist.py:36-42 | the map becomes `Step(old map, key, c)`: the last three keys extended, then `c` appended under `key`, a new key inserted last. `search` and the entries are unchanged |
| WordList.Chinese2WordList.ExtendLastThree | chinese2wordlist.py:37-40 | each of the last three keys in insertion order gets its snapshot list plus that list's last candidate extended by `c`. Keys and every other list are unchanged |
| Expansion.StepWellFormed | chinese2wordlist.py:36-42 | a step keeps the map well formed: distinct keys in insertion order, exactly the map's keys, every list non-empty |
| Expansion.Step | chinese2wordlist.py:36-42 | one `_create_smart_search_list(key, c)` on the map as a value; `StepWellFormed` proves it keeps the map well formed and `StepExpands` that it turns the expansion of a prefix into that of the next prefix |
| Search.StepMetaFree | chinese2wordlist.py:36-42 | a step with a character that is not a metacharacter keeps every candidate of the map free of metacharacters |
| Search.ExtendAllMetaFree | chinese2wordlist.py:37-40 | extending the last three lists by such a character keeps every candidate free of metacharacters |
| Search.ExpandMetaFree | chinese2wordlist.py:30-32 | expanding a text without metacharacters keeps every candidate of the map free of them, so each candidate spliced into a template stands for itself |
| Expansion.ExtendAllAt | chinese2wordlist.py:37-40 | the loop keeps the key set; visited keys hold their extended snapshot list, unvisited keys their old list |
| Expansion.ExpandFrom | chinese2wordlist.py:31-32 | expanding a text one character at a time keeps the map well formed |
| Expansion.StepExpands | chinese2wordlist.py:31-42 | from the expansion of a text's prefix, one step at the next index gives the expansion of the text one character longer |
| Expansion.ExpandCorrect | chinese2wordlist.py:30-42 | from an empty map the keys are 0..n-1 in order. Position p holds the substrings at p of length 1 to min(4, n - p), shortest first |
| Expansion.CandidatesDistinct | chinese2wordlist.py:37-42 | the candidates of a position are distinct, the i-th having length i + 1 |
| Expansion.LastThreeOfRange | chinese2wordlist.py:37 | for keys 0..n-1 the slice `[-3:]` visits exactly the positions n - min(3, n) .. n-1, each once |
| WordList.Chinese2WordList.SearchViaSmartSearch | chinese2wordlist.py:44-48 | for candidates without metacharacters, the map is unchanged. `search` and the entries become `SearchKeys` over the map's keys in insertion order, from their old values |
| WordList.Chinese2WordList.StoreKey | chinese2wordlist.py:45-48 | one key whose candidates hold no metacharacters: they are looked up in order and the flattened non-empty lines are stored under it. A new key goes last in the insertion order |
| WordList.Chinese2WordList.SearchCandidates | chinese2wordlist.py:46-47 | for candidates without metacharacters, the results and the new `search` list are those of `LookupAll`: one result per candidate, in order |
| WordList.Chinese2WordList.SearchCharacterInDictionary | chinese2wordlist.py:50-64 | for a candidate without metacharacters: one already in `search` gives None and leaves `search` alone. Any other is appended to `search` and gives the matching dictionary lines in file order |
| WordList.ScanDictionary | chinese2wordlist.py:57-62 | the scan returns `MatchingLines`: every line the pattern matches, in file order |
| Search.MatchingLines | chinese2wordlist.py:57-62 | a line is in the result exactly when it is a dictionary line the pattern matches; the result is no longer than the file |
| Search.MatchingLinesCount | chinese2wordlist.py:59-62 | each matching line occurs as often as in the file, and no other line occurs |
| Search.MatchingLinesAppend | chinese2wordlist.py:59-62 | scanning two parts of the file in turn concatenates their results (file order is kept) |
| Search.Lookup | chinese2wordlist.py:50-64 | one `_search_character_in_dictionary` on the `search` list as a value: one result, None exactly when the candidate was already in `search`; `search` then holds the candidate and changes exactly when it was new |
| Search.LookupAll | chinese2wordlist.py:47 | `pool.map` of the lookup over a key's candidates, in order; `LookupAllSearch`, `LookupAllDistinct`, `LookupAllResult` and `LookupAllFlatten` prove what it gives |
| Search.Flatten | chinese2wordlist.py:48 | the comprehension that drops None results and empty lines and concatenates the rest; `LookupAllFlatten` proves it gives each fresh candidate's matching lines in candidate order |
| Search.LookupAllSearch | chinese2wordlist.py:52-54 | looking up candidates yields one result each, only appends to `search`, and afterwards `search` holds exactly the old strings and the candidates |
| Search.LookupAllDistinct | chinese2wordlist.py:52-54 | `search` never holds a candidate twice |
| Search.LookupAllResult | chinese2wordlist.py:47-54 | the j-th result is None exactly when the j-th candidate was in `search` or earlier in the list; otherwise it is that candidate's matching lines |
| Search.LookupAllFlatten | chinese2wordlist.py:47-48 | the flattened results are the matching lines of each candidate not seen before, in candidate order |
| Search.NonEmptyLinesKeepsAll | chinese2wordlist.py:48 | the `if item` filter keeps a list of non-empty lines as it is |
| Search.SearchKeys | chinese2wordlist.py:44-48 | the loop of `_search_dictionary_via_smart_search` on the state as a value; `SearchKeysHas`, `SearchKeysKeys`, `SearchKeysEntries`, `SearchKeysSearch`, `SearchKeysEntryAt` and `SearchKeysValid` prove what it does |
| Search.SearchKeysHas | chinese2wordlist.py:45-48 | after the search phase, a key has an entry exactly when it had one before or is a key of the map |
| Search.SearchKeysEntries | chinese2wordlist.py:45-48 | an entry whose key the phase does not visit is left alone |
| Search.SearchKeysKeys | chinese2wordlist.py:48 | keys without an entry are appended to the entries' insertion order in the order visited |
| Search.SearchKeysOrder | chinese2wordlist.py:45-48 | starting from entries with none of the visited keys, the entries stay well formed and their order is the old one followed by the visited keys |
| Search.SearchKeysValid | chinese2wordlist.py:44-48 | from any well-formed entries, the search phase keeps them well formed |
| Search.SearchKeysSearch | chinese2wordlist.py:44-54 | `search` only grows, and afterwards it holds the old strings and every candidate of every visited key |
| Search.SearchKeysEntryAt | chinese2wordlist.py:44-54 | the i-th visited key's entry holds the matches of those of its candidates not in `search` and not under an earlier key |
| Search.SearchTextCorrect | chinese2wordlist.py:30-54 | for a text searched from empty state, the entries' keys are 0..n-1 in order. Position p holds the matching lines of its candidates that no earlier position or candidate looked up, in candidate order |
| WordList.Chinese2WordList.DictionaryLocation | chinese2wordlist.py:66-70 | the Dutch dictionary exactly for the language "nl", the English one for every other language |
| Pattern.TemplateFor | chinese2wordlist.py:87-90 | the traditional template exactly for the character type "traditional", the simplified one for every other type |
| Pattern.MatchesCorrect | chinese2wordlist.py:72-76 | for a candidate without regular-expression metacharacters, the test run on each line holds exactly when the regular expression built by splicing the candidate into the template matches at the line's start |
| Pattern.Matches | chinese2wordlist.py:72-76 | `pattern.match(line)` for the spliced template, as an index-based test; `MatchesCorrect` proves it is the regular-expression reading, and `MatchedLineNonEmpty` that a matched line is longer than the candidate |
| Pattern.BracketTailCorrect | chinese2wordlist.py:89-90 | the test for ` \[.+?\] .+` agrees with that regular expression |
| Pattern.TraditionalMatchAnchorsCandidate | chinese2wordlist.py:89 | a traditional-template match starts with the candidate followed by a space |
| Pattern.SimplifiedMatchAnchorsCandidate | chinese2wordlist.py:90 | a simplified-template match contains the candidate between a space and ` [` after at least one character |
| Pattern.MatchedLineNonEmpty | chinese2wordlist.py:56-62 | a matched line is at least eight characters longer than the candidate, so none is empty |
| Pattern.EntryFoundByItsForms | chinese2wordlist.py:87-90 | a dictionary line is found through its traditional form with the traditional template and through its simplified form with the simplified one |
| Pattern.SimplifiedMatchesBeyondSecondField | chinese2wordlist.py:90 | the simplified template also matches a candidate standing as a later field, before the bracket |
| Definitions.SkipNonSpace | chinese2wordlist.py:79 | greedy `\S+` stops at the first whitespace or the end, with no whitespace in between |
| Definitions.TailAt | chinese2wordlist.py:79 | `\]\s\/(.+)\/` after the pinyin: the furthest closing slash on the line, if any |
| Definitions.FindPinyinEnd | chinese2wordlist.py:79 | the lazy pinyin group ends at the first position from which the rest of the pattern can match |
| Definitions.Match | chinese2wordlist.py:79-80 | `pattern.match(line)` for the definitions pattern, as the group bounds it reports; `MatchSound` and `MatchFirst` prove it reports a match exactly when there is one, and then the first in backtracking order |
| Definitions.Parse | chinese2wordlist.py:78-85 | `_extract_line_to_definitions`: the four groups of the match, or None where Python raises; `ParseCorrect`, `ParsedShape` and `ParseLine` prove what it reads |
| Definitions.MatchFirst | chinese2wordlist.py:79-80 | whenever the pattern can match, `match` reports the first match in backtracking order |
| Definitions.ParseCorrect | chinese2wordlist.py:78-85 | a line reads exactly when the pattern matches it, and then it gives the four groups of the reported match |
| Definitions.ParsedShape | chinese2wordlist.py:79-85 | the four fields read are non-empty. The first two hold no whitespace and the last two no line break |
| Definitions.ParseLine | chinese2wordlist.py:78-85 | the line `traditional simplified [pinyin] /definition/` (optionally followed by a line break) reads back as those four fields |
| Reply.SortKeys | chinese2wordlist.py:93 | the keys come out in ascending order (a permutation of the input) |
| Reply.SortedUnique | chinese2wordlist.py:93 | two ascending permutations of the same keys are equal, so the sort is determined |
| Reply.SortedValuesInOrder | chinese2wordlist.py:93-94 | when the keys were inserted in ascending order, the values come out in insertion order |
| Reply.SortedValues | chinese2wordlist.py:93-94 | one value per key, the values ordered by ascending key; `SortedUnique` pins the order down and `SortedValuesInOrder` proves it is the insertion order when keys were inserted ascending |
| WordList.ValuesOfText | chinese2wordlist.py:92-94 | for a text searched from empty state, `response` sees one value per character, and value p is position p's entry as `SearchTextCorrect` describes it |
| Reply.ReplyFor | chinese2wordlist.py:92-100 | Markdown exactly for "markdown" or "m", JSON values exactly for "json", otherwise the entries in insertion order. The first two use the values in ascending key order |
| WordList.Chinese2WordList.Response | chinese2wordlist.py:92-100 | the reply is `ReplyFor` the response type and the current entries |
| Reply.Rows | chinese2wordlist.py:108-117 | the rows exist exactly when every line reads, and then there is one row per line, in order, with the row of its fields |
| Reply.Row | chinese2wordlist.py:112-117 | the Markdown row of one definition, its four fields in the order traditional, simplified, pinyin, translation; `MarkdownOfLine` proves that a line with readable fields gives back the row of those fields |
| WordList.ResponseMarkdown | chinese2wordlist.py:105-119 | the nested loops give `Markdown(values)`: None as soon as a line does not read, otherwise the rows joined |
| WordList.MarkdownFails | chinese2wordlist.py:108-110 | one line that does not read leaves the whole Markdown text undefined |
| WordList.MarkdownOfRows | chinese2wordlist.py:105-119 | when every line reads, the Markdown text is their rows, in order, joined by line breaks |
| Reply.MarkdownExists | chinese2wordlist.py:105-119 | the text exists exactly when every line of every value reads; no lines give the empty text |
| Reply.Markdown | chinese2wordlist.py:105-119 | `_response_markdown` as a value: None when a line does not read, otherwise the rows joined; `MarkdownExists` and `MarkdownLines` prove when it exists and what its lines are |
| Reply.SplitJoin | chinese2wordlist.py:119 | splitting the joined rows at line breaks gives the rows back when none holds a line break |
| Reply.Join | chinese2wordlist.py:119 | `'\n'.join(rows)`; `SplitJoin` proves that splitting at line breaks gives the rows back when none holds a line break |
| Reply.MarkdownLines | chinese2wordlist.py:105-119 | the lines of the Markdown text are the rows of the lines read, one per line and in order |
| Reply.MarkdownOfLine | chinese2wordlist.py:110-117 | a dictionary line with readable fields becomes the row of those same fields |
| WordList.Create | chinese2wordlist.py:14-28 | an instance with fresh attributes: the expansion of the text alone and its lookups from empty state |
| WordList.SharedAttributesRepeatText | chinese2wordlist.py:19-21 | two instances on shared attributes, both for "a": the second one's entry for position 0 holds the lines of "aa", not those of "a" |

## Left out

- `_response_json`: `json.dumps` is not modelled. The JSON reply carries the values it would
  encode.
- `ThreadPool(4)` and `pool.map`: the lookups of one key are modelled as calls made one after
  another, in candidate order. Two threads checking `search` at once (a candidate looked up twice)
  is not modelled.
- The dictionary file: opening and reading the file is the parameter `readLines`, which maps a
  path to its lines, each with its line break. An `IOError` for a missing file is not modelled.
- The `re` engine: the two search templates and the definitions pattern are modelled as explicit
  predicates, not by a general regular-expression matcher.
- WordList.Chinese2WordList.constructor: requires that the text holds no regular-expression
  metacharacter. With one, the spliced pattern means something other than the literal candidate,
  or `re.compile` raises.
- WordList.Chinese2WordList.SearchDictionary: the same requirement on the text, for the same reason.
- WordList.Create: the same requirement on the text, for the same reason.
- WordList.Chinese2WordList.SearchCharacterInDictionary: requires that the candidate holds no
  regular-expression metacharacter. The source splices it into the template unescaped, so a
  candidate such as `.` would match far more lines than the literal text; the model does not
  capture that. The class invariant keeps every candidate free of metacharacters when the text is.
- WordList.Chinese2WordList.SearchCandidates: the same requirement on every candidate, for the same
  reason.
- WordList.Chinese2WordList.StoreKey: the same requirement on every candidate, for the same reason.
- WordList.Chinese2WordList.SearchViaSmartSearch: the same requirement on every candidate of the
  map, for the same reason.
- Pattern.MatchesCorrect: the agreement with the regular expression holds only for a candidate
  without metacharacters. For one with them, `Matches` still reads the candidate literally, which
  is not what the spliced pattern does.
- `_extract_line_to_definitions` on a line the pattern does not match: Python raises `TypeError`
  there. The model gives None, and the Markdown reply is None.
- The `__main__` block (argparse and `print`): command-line handling, not part of the class.
- The class-level defaults `None` of `character_type`, `response_type` and `language`: the
  constructor always overwrites them, so they are never observed.
- `ExtendLastThree`, `StoreKey`, `SearchCandidates` and `ScanDictionary` are the source's own loops
  and loop bodies, split into methods of their own. No new behaviour is added.
- Where the code and its description differ, the model follows the code:
  - the slice `[-3:]` caps each position at four candidates, not at every substring to the end
    of the text;
  - the simplified template `.+? (character) \[` accepts the candidate as any field before the
    bracket, not only the second one (`SimplifiedMatchesBeyondSecondField`);
  - the templates use `.+?` where `\S+` might be expected;
  - a Markdown row has four columns, including the traditional form.

## Findings

| source | as written | input that shows it | evidently intended | confidence | as-written member | corrected member |
|---|---|---|---|---|---|---|
| chinese2wordlist.py:19-21 | `smart_search_characters`, `search` and `translated_dictionary_entries` are class attributes, shared by every instance in the process | two instances in turn, each for the text "a" | each instance starts from empty state, so the second one's entry for position 0 holds the lines matching "a" | not executed | WordList.SharedAttributesRepeatText | WordList.Create |

For the first row, the constructor's contract applies `ExpandFrom` and `SearchKeys` to the old
attributes. `SharedAttributesRepeatText` evaluates those functions on the state the first instance
leaves behind:

- the second instance's map holds "a", "aa", "a" under key 0;
- "a" is already in `search`;
- so the entry for position 0 becomes the lines of "aa" alone.

`Create` gives each instance attributes of its own and starts from empty state. `ValuesOfText`
and `SearchTextCorrect` describe what it then produces.
