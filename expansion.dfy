/**
 * The smart-search candidate map of `_create_smart_search_list`: an
 * insertion-ordered map from a start position to the candidate substrings
 * that start there. For each character of the text, in order, the last three
 * positions of the map (in insertion order) are extended by their last
 * candidate plus the character, and then the character's own position is
 * given the one-character candidate.
 */
module Expansion {
  import opened Base

  /** An insertion-ordered map: `order` lists the keys of `lists` in the order they were inserted. */
  datatype SmartList = SmartList(order: seq<nat>, lists: map<nat, seq<string>>)

  /** The dictionary `smart_search_characters` as the source keeps it: every list non-empty. */
  ghost predicate WellFormed(s: SmartList) {
    && Distinct(s.order)
    && (forall k :: k in s.lists <==> k in s.order)
    && (forall k | k in s.lists :: s.lists[k] != [])
  }

  /** The keys `list(items())[-3:]` visits: the last three in insertion order, or all when fewer. */
  function LastThree(order: seq<nat>): seq<nat> {
    if |order| <= 3 then order else order[|order| - 3..]
  }

  /** Every key visited is a key of the map with a non-empty list. */
  ghost predicate Extendable(lists: map<nat, seq<string>>, ks: seq<nat>) {
    forall i | 0 <= i < |ks| :: ks[i] in lists && lists[ks[i]] != []
  }

  /** The keys `list(items())[-3:]` visits are keys of a well-formed map. */
  lemma LastThreeExtendable(s: SmartList)
    requires WellFormed(s)
    ensures Extendable(s.lists, LastThree(s.order))
  {
    var lt := LastThree(s.order);
    forall i | 0 <= i < |lt| ensures lt[i] in s.order {
      if |s.order| > 3 { assert lt[i] == s.order[|s.order| - 3 + i]; }
    }
  }

  /** One list extended by its last candidate followed by `c`. */
  function Extended(l: seq<string>, c: char): seq<string>
    requires l != []
  {
    l + [l[|l| - 1] + [c]]
  }

  /**
   * The loop of `_create_smart_search_list` after it has visited the keys
   * `ks`: each is given its list from the snapshot `lists`, extended.
   */
  function ExtendAll(lists: map<nat, seq<string>>, ks: seq<nat>, c: char): map<nat, seq<string>>
    requires Extendable(lists, ks)
    decreases |ks|
  {
    if ks == [] then lists
    else
      var k := ks[|ks| - 1];
      assert Extendable(lists, ks[..|ks| - 1]);
      ExtendAll(lists, ks[..|ks| - 1], c)[k := Extended(lists[k], c)]
  }

  /** The loop keeps the keys; every visited key holds its extended list and every other its old one. */
  lemma {:induction false} ExtendAllAt(lists: map<nat, seq<string>>, ks: seq<nat>, c: char, k: nat)
    requires Extendable(lists, ks)
    ensures k in ExtendAll(lists, ks, c) <==> k in lists
    ensures k in lists ==> ExtendAll(lists, ks, c)[k] == if k in ks then Extended(lists[k], c) else lists[k]
    decreases |ks|
  {
    if ks != [] {
      var init := ks[..|ks| - 1];
      assert Extendable(lists, init);
      ExtendAllAt(lists, init, c, k);
      assert k in ks <==> k in init || k == ks[|ks| - 1];
    }
  }

  /** The keys of the map are those it had, and every list that was non-empty still is. */
  lemma ExtendAllKeys(lists: map<nat, seq<string>>, ks: seq<nat>, c: char)
    requires Extendable(lists, ks)
    ensures forall k :: k in ExtendAll(lists, ks, c) <==> k in lists
    ensures forall k | k in lists && lists[k] != [] :: ExtendAll(lists, ks, c)[k] != []
  {
    forall k ensures k in ExtendAll(lists, ks, c) <==> k in lists {
      ExtendAllAt(lists, ks, c, k);
    }
    forall k | k in lists && lists[k] != [] ensures ExtendAll(lists, ks, c)[k] != [] {
      ExtendAllAt(lists, ks, c, k);
    }
  }

  /** Visiting the i-th key of `ks` gives it its extended list from the snapshot. */
  lemma ExtendAllNext(lists: map<nat, seq<string>>, ks: seq<nat>, i: nat, c: char)
    requires Extendable(lists, ks) && i < |ks|
    ensures Extendable(lists, ks[..i]) && Extendable(lists, ks[..i + 1])
    ensures ExtendAll(lists, ks[..i + 1], c) == ExtendAll(lists, ks[..i], c)[ks[i] := Extended(lists[ks[i]], c)]
  {
    assert ks[..i + 1][..i] == ks[..i];
  }

  /** One call `_create_smart_search_list(key, c)`. */
  function Step(s: SmartList, key: nat, c: char): SmartList
    requires WellFormed(s)
  {
    LastThreeExtendable(s);
    var lists := ExtendAll(s.lists, LastThree(s.order), c);
    if key in lists then SmartList(s.order, lists[key := lists[key] + [[c]]])
    else SmartList(s.order + [key], lists[key := [[c]]])
  }

  /** A step keeps the map well formed: keys in insertion order, each once, every list non-empty. */
  lemma StepWellFormed(s: SmartList, key: nat, c: char)
    requires WellFormed(s)
    ensures WellFormed(Step(s, key, c))
  {
    LastThreeExtendable(s);
    ExtendAllKeys(s.lists, LastThree(s.order), c);
  }

  /** The loop of `_search_dictionary`: one step per character, keyed by its index. */
  function ExpandFrom(s: SmartList, text: string): (r: SmartList)
    requires WellFormed(s)
    ensures WellFormed(r)
    decreases |text|
  {
    if text == [] then s
    else
      var prev := ExpandFrom(s, text[..|text| - 1]);
      StepWellFormed(prev, |text| - 1, text[|text| - 1]);
      Step(prev, |text| - 1, text[|text| - 1])
  }

  // ---------------------------------------------------------------------------
  // What the expansion produces from an empty map
  // ---------------------------------------------------------------------------

  /** The candidates a position ends up with: lengths 1 to min(4, n - p), each a substring at p. */
  function Candidates(text: string, p: nat): seq<string>
    requires p <= |text|
  {
    seq(Min(4, |text| - p), i requires 0 <= i < Min(4, |text| - p) => text[p..p + i + 1])
  }

  /** The reference reading of the expanded map: positions 0..n-1 in ascending order, each with its candidates. */
  ghost predicate IsExpansionOf(s: SmartList, text: string) {
    && s.order == Range(|text|)
    && (forall k: nat :: k in s.lists <==> k < |text|)
    && (forall p: nat | p < |text| :: s.lists[p] == Candidates(text, p))
  }

  lemma ExpansionWellFormed(s: SmartList, text: string)
    requires IsExpansionOf(s, text)
    ensures WellFormed(s)
  {
    forall k: nat | k < |text| ensures s.order[k] == k && k in s.order { }
  }

  /** The keys visited in the step that reads character n are n-3, n-2, n-1 (those that exist). */
  lemma LastThreeOfRange(n: nat)
    ensures Distinct(LastThree(Range(n)))
    ensures forall p: nat :: p in LastThree(Range(n)) <==> n - Min(3, n) <= p < n
  {
    var lt := LastThree(Range(n));
    var m := Min(3, n);
    assert |lt| == m && lt == Range(n)[n - m..];
    forall p: nat ensures p in lt <==> n - m <= p < n {
      if n - m <= p < n { assert lt[p - (n - m)] == p; }
    }
  }

  /** A position among the last three gains the candidate that runs up to the new character. */
  lemma CandidatesExtend(text: string, c: char, p: nat)
    requires |text| - 3 <= p < |text|
    ensures Candidates(text, p) != []
    ensures Candidates(text + [c], p) ==
              Candidates(text, p) + [Candidates(text, p)[|Candidates(text, p)| - 1] + [c]]
  {
    var n := |text|;
    var old', new' := Candidates(text, p), Candidates(text + [c], p);
    assert |old'| == n - p && |new'| == n - p + 1;
    assert old'[n - p - 1] == text[p..n];
    assert new'[n - p] == (text + [c])[p..n + 1] == text[p..n] + [c];
    forall i | 0 <= i < n - p ensures new'[i] == old'[i] {
      assert (text + [c])[p..p + i + 1] == text[p..p + i + 1];
    }
  }

  /** A position more than three characters back already has its four candidates. */
  lemma CandidatesKeep(text: string, c: char, p: nat)
    requires p + 3 < |text|
    ensures Candidates(text + [c], p) == Candidates(text, p)
  {
    var old', new' := Candidates(text, p), Candidates(text + [c], p);
    assert |old'| == 4 && |new'| == 4;
    forall i | 0 <= i < 4 ensures new'[i] == old'[i] {
      assert (text + [c])[p..p + i + 1] == text[p..p + i + 1];
    }
  }

  /** Position p < n after the step: extended when it is one of the last three, untouched otherwise. */
  lemma StepAt(s: SmartList, text: string, c: char, p: nat)
    requires IsExpansionOf(s, text) && p < |text|
    requires Extendable(s.lists, LastThree(s.order))
    ensures p in ExtendAll(s.lists, LastThree(s.order), c)
    ensures ExtendAll(s.lists, LastThree(s.order), c)[p] == Candidates(text + [c], p)
  {
    var n := |text|;
    LastThreeOfRange(n);
    ExtendAllAt(s.lists, LastThree(s.order), c, p);
    if n - Min(3, n) <= p {
      CandidatesExtend(text, c, p);
    } else {
      CandidatesKeep(text, c, p);
    }
  }

  lemma RangeSnoc(n: nat)
    ensures Range(n) + [n] == Range(n + 1)
  {
  }

  /** The step that reads character n of a text whose first n characters are expanded. */
  lemma StepNewKey(s: SmartList, n: nat, c: char)
    requires WellFormed(s) && n !in s.lists
    ensures Step(s, n, c).order == s.order + [n]
    ensures Extendable(s.lists, LastThree(s.order))
    ensures Step(s, n, c).lists == ExtendAll(s.lists, LastThree(s.order), c)[n := [[c]]]
  {
    LastThreeExtendable(s);
    ExtendAllAt(s.lists, LastThree(s.order), c, n);
  }

  /** The position of the last character holds only that character. */
  lemma CandidatesOfLast(text: string)
    requires text != []
    ensures Candidates(text, |text| - 1) == [[text[|text| - 1]]]
  {
    assert text[|text| - 1..|text|] == [text[|text| - 1]];
  }

  /** One position after the step that reads the last character of `text`. */
  lemma StepExpandsAt(s: SmartList, text: string, p: nat)
    requires text != [] && IsExpansionOf(s, text[..|text| - 1]) && p < |text|
    ensures WellFormed(s)
    ensures p in Step(s, |text| - 1, text[|text| - 1]).lists
    ensures Step(s, |text| - 1, text[|text| - 1]).lists[p] == Candidates(text, p)
  {
    var n, init, c := |text| - 1, text[..|text| - 1], text[|text| - 1];
    ExpansionWellFormed(s, init);
    StepNewKey(s, n, c);
    if p == n {
      CandidatesOfLast(text);
    } else {
      StepAt(s, init, c, p);
      assert init + [c] == text;
    }
  }

  /** Reading the last character of `text` turns the expansion of the rest into that of `text`. */
  lemma {:induction false} StepExpands(s: SmartList, text: string)
    requires text != [] && IsExpansionOf(s, text[..|text| - 1])
    ensures WellFormed(s)
    ensures IsExpansionOf(Step(s, |text| - 1, text[|text| - 1]), text)
  {
    var n := |text| - 1;
    ExpansionWellFormed(s, text[..n]);
    StepNewKey(s, n, text[n]);
    StepWellFormed(s, n, text[n]);
    RangeSnoc(n);
    forall p: nat | p < n + 1
      ensures p in Step(s, n, text[n]).lists && Step(s, n, text[n]).lists[p] == Candidates(text, p)
    {
      StepExpandsAt(s, text, p);
    }
  }

  /**
   * Expanding a text of length n from an empty map yields keys 0..n-1,
   * inserted in ascending order, and at each position p the candidates
   * text[p..p+1], ..., text[p..p+min(4, n-p)].
   */
  lemma {:induction false} ExpandCorrect(text: string)
    ensures IsExpansionOf(ExpandFrom(SmartList([], map[]), text), text)
    decreases |text|
  {
    if text != [] {
      var empty := SmartList([], map[]);
      ExpandCorrect(text[..|text| - 1]);
      StepExpands(ExpandFrom(empty, text[..|text| - 1]), text);
    }
  }

  /** Each candidate at a position is the previous one with the next character of the text appended. */
  lemma CandidatesGrow(text: string, p: nat, i: nat)
    requires p <= |text| && i + 1 < |Candidates(text, p)|
    ensures Candidates(text, p)[i + 1] == Candidates(text, p)[i] + [text[p + i + 1]]
  {
    assert text[p..p + i + 2] == text[p..p + i + 1] + [text[p + i + 1]];
  }

  /** Candidates at one position have different lengths, so no candidate repeats within a position. */
  lemma CandidatesDistinct(text: string, p: nat)
    requires p <= |text|
    ensures Distinct(Candidates(text, p))
    ensures forall i | 0 <= i < |Candidates(text, p)| :: |Candidates(text, p)[i]| == i + 1
  {
  }
}
