/** SearchAutocomplete: a typing cursor over the sentence trie that answers each
    character with the three best-ranked stored sentences extending the input. */
module SearchAutocompleteService {
  import opened Wrappers
  import opened SentenceRanking
  import opened AutocompleteTrie

  const TopK := 3

  /** The frequency the constructor stores for s: the sum of the counts of its occurrences. */
  function Tally(phrases: seq<string>, counts: seq<int>, s: string): (r: Option<int>)
    requires |counts| >= |phrases|
    ensures r.Some? <==> s in phrases
    decreases |phrases|
  {
    if phrases == [] then None
    else
      var last := |phrases| - 1;
      var prev := Tally(phrases[..last], counts, s);
      assert phrases == phrases[..last] + [phrases[last]];
      if phrases[last] == s then Some(OrZero(prev) + counts[last]) else prev
  }

  predicate DistinctSentences(s: seq<SentenceFrequency>)
  {
    forall i, j :: 0 <= i < j < |s| ==> s[i].sentence != s[j].sentence
  }

  function Rank(t: TrieNode, s: string): SentenceFrequency
    requires FreqOf(t, s).Some?
  {
    SentenceFrequency(s, FreqOf(t, s).value)
  }

  /** r is the top of the ranking among stored sentences extending input: at most three,
      stored, in ranking order, and every sentence left out ranks after all of them. */
  ghost predicate IsTopSuggestions(r: seq<string>, t: TrieNode, input: string)
  {
    |r| <= TopK &&
    (forall i :: 0 <= i < |r| ==> FreqOf(t, r[i]).Some? && PrefixOf(input, r[i])) &&
    (forall i, j :: 0 <= i < j < |r| ==> FreqOf(t, r[i]).Some? && FreqOf(t, r[j]).Some? && Before(Rank(t, r[i]), Rank(t, r[j]))) &&
    (forall s :: FreqOf(t, s).Some? && PrefixOf(input, s) && s !in r ==>
      |r| == TopK && forall i :: 0 <= i < |r| ==> FreqOf(t, r[i]).Some? && Before(Rank(t, r[i]), Rank(t, s)))
  }

  lemma {:induction false} DistinctCountOne(a: seq<SentenceFrequency>, x: SentenceFrequency)
    requires DistinctSentences(a)
    ensures multiset(a)[x] <= 1
  {
    if a != [] {
      var init := a[..|a| - 1];
      assert a == init + [a[|a| - 1]];
      assert DistinctSentences(init);
      DistinctCountOne(init, x);
      if a[|a| - 1] == x {
        assert x !in init;
      }
    }
  }

  lemma CountTwo(b: seq<SentenceFrequency>, i: int, j: int)
    requires 0 <= i < j < |b| && b[i] == b[j]
    ensures multiset(b)[b[i]] >= 2
  {
    assert b == b[..j] + [b[j]] + b[j + 1..];
    assert b[i] in b[..j];
  }

  /** Sorting entries that are a function of their sentence keeps the sentences distinct. */
  lemma SortedStaysDistinct(a: seq<SentenceFrequency>, b: seq<SentenceFrequency>, t: TrieNode, input: string)
    requires DistinctSentences(a) && multiset(a) == multiset(b)
    requires forall e :: e in b ==> FreqOf(t, e.sentence) == Some(e.frequency)
    ensures DistinctSentences(b)
  {
    forall i, j | 0 <= i < j < |b| ensures b[i].sentence != b[j].sentence {
      if b[i].sentence == b[j].sentence {
        assert b[i] in b && b[j] in b;
        CountTwo(b, i, j);
        DistinctCountOne(a, b[i]);
      }
    }
  }

  /** The first three sentences of the sorted entries are the top suggestions. */
  lemma TopOfSorted(t: TrieNode, input: string, sorted: seq<SentenceFrequency>, r: seq<string>)
    requires Sorted(sorted) && DistinctSentences(sorted)
    requires forall e :: e in sorted <==> PrefixOf(input, e.sentence) && FreqOf(t, e.sentence) == Some(e.frequency)
    requires |r| == if |sorted| < TopK then |sorted| else TopK
    requires forall i :: 0 <= i < |r| ==> r[i] == sorted[i].sentence
    ensures IsTopSuggestions(r, t, input)
  {
    forall i | 0 <= i < |r| ensures FreqOf(t, r[i]).Some? && Rank(t, r[i]) == sorted[i] {
      assert sorted[i] in sorted;
    }
    forall s | FreqOf(t, s).Some? && PrefixOf(input, s) && s !in r
      ensures |r| == TopK && forall i :: 0 <= i < |r| ==> FreqOf(t, r[i]).Some? && Before(Rank(t, r[i]), Rank(t, s))
    {
      var e := Rank(t, s);
      assert e in sorted;
      var j :| 0 <= j < |sorted| && sorted[j] == e;
      forall i | 0 <= i < |r| ensures Before(Rank(t, r[i]), Rank(t, s)) {
        assert RankedNoLater(sorted[i], sorted[j]);
      }
    }
    forall i, j | 0 <= i < j < |r| ensures Before(Rank(t, r[i]), Rank(t, r[j])) {
      assert RankedNoLater(sorted[i], sorted[j]);
    }
  }

  /** seg holds exactly the entries of node's own end mark and of the
      children whose keys are in done. */
  ghost predicate CollectedFrom(node: TrieNode, p: string, done: set<char>, seg: seq<SentenceFrequency>)
  {
    forall e :: e in seg <==>
      (e.sentence == p && node.endOfSentence && e.frequency == node.frequency) ||
      (PrefixOf(p, e.sentence) && |e.sentence| > |p| && e.sentence[|p|] in done &&
       e.sentence[|p|] in node.children && IsEntry(node.children[e.sentence[|p|]], p + [e.sentence[|p|]], e))
  }

  /** Appending the entries below one more child keeps the collection
      exact and its sentences distinct. */
  lemma CollectStep(node: TrieNode, p: string, done: set<char>, c: char,
                    before: seq<SentenceFrequency>, batch: seq<SentenceFrequency>)
    requires c in node.children && c !in done
    requires CollectedFrom(node, p, done, before) && DistinctSentences(before)
    requires forall e :: e in batch <==> IsEntry(node.children[c], p + [c], e)
    requires DistinctSentences(batch)
    ensures CollectedFrom(node, p, done + {c}, before + batch)
    ensures DistinctSentences(before + batch)
  {
    forall e | e in batch
      ensures PrefixOf(p, e.sentence) && |e.sentence| > |p| && e.sentence[|p|] == c
    {
      assert e.sentence[..|p| + 1] == p + [c];
    }
    forall i, j | 0 <= i < |before| && 0 <= j < |batch|
      ensures before[i].sentence != batch[j].sentence
    {
      assert before[i] in before && batch[j] in batch;
    }
  }

  /** Once every child is done, the collection is exactly the entries below node. */
  lemma CollectDone(node: TrieNode, p: string, seg: seq<SentenceFrequency>)
    requires CollectedFrom(node, p, node.children.Keys, seg)
    ensures forall e :: e in seg <==> IsEntry(node, p, e)
  {
    forall e ensures e in seg <==> IsEntry(node, p, e) {
      EntryUnfold(node, p, e);
    }
  }

  /** collectSentences: appends the sentence and frequency of every end node below node. */
  method CollectSentences(node: TrieNode, ghost p: string, results: seq<SentenceFrequency>) returns (out: seq<SentenceFrequency>)
    requires Labelled(node, p)
    ensures |out| >= |results| && out[..|results|] == results
    ensures forall e :: e in out[|results|..] <==> IsEntry(node, p, e)
    ensures DistinctSentences(out[|results|..])
    decreases node
  {
    out := results;
    if node.endOfSentence {
      out := out + [SentenceFrequency(node.sentence.value, node.frequency)];
    }
    var keys := node.children.Keys;
    ghost var done: set<char> := {};
    while keys != {}
      invariant keys + done == node.children.Keys && keys !! done
      invariant |out| >= |results| && out[..|results|] == results
      invariant CollectedFrom(node, p, done, out[|results|..])
      invariant DistinctSentences(out[|results|..])
      decreases keys
    {
      var c :| c in keys;
      ghost var before := out[|results|..];
      out := CollectSentences(node.children[c], p + [c], out);
      ghost var batch := out[|before| + |results|..];
      assert out[|results|..] == before + batch;
      CollectStep(node, p, done, c, before, batch);
      keys := keys - {c};
      done := done + {c};
    }
    CollectDone(node, p, out[|results|..]);
  }

  /** The sentences collected below the node at input, sorted by rank:
      sorted, without repeats, and exactly the stored sentences extending
      input with their frequencies. */
  lemma RankedMatches(t: TrieNode, input: string, node: TrieNode, matches: seq<SentenceFrequency>)
    requires Find(t, input) == Some(node)
    requires forall e :: e in matches <==> IsEntry(node, input, e)
    requires DistinctSentences(matches)
    ensures Sorted(SortByRank(matches)) && DistinctSentences(SortByRank(matches))
    ensures forall e :: e in SortByRank(matches) <==> PrefixOf(input, e.sentence) && FreqOf(t, e.sentence) == Some(e.frequency)
  {
    var sorted := SortByRank(matches);
    SortByRankSorted(matches);
    forall e ensures e in sorted <==> PrefixOf(input, e.sentence) && FreqOf(t, e.sentence) == Some(e.frequency) {
      assert e in sorted <==> e in multiset(sorted);
      assert e in matches <==> e in multiset(matches);
      EntryAtPath(t, input, node, e);
    }
    SortedStaysDistinct(matches, sorted, t, input);
  }

  /** Collect every sentence below the cursor node, sort by compareTo, keep the first three. */
  method Suggest(t: TrieNode, input: string, node: TrieNode) returns (r: seq<string>)
    requires Find(t, input) == Some(node) && Labelled(node, input)
    ensures IsTopSuggestions(r, t, input)
  {
    var matches := CollectSentences(node, input, []);
    assert matches[0..] == matches;
    var sorted := SortByRank(matches);
    RankedMatches(t, input, node, matches);
    var n := if |sorted| < TopK then |sorted| else TopK;
    r := [];
    for i := 0 to n
      invariant |r| == i && forall j :: 0 <= j < i ==> r[j] == sorted[j].sentence
    {
      r := r + [sorted[i].sentence];
    }
    TopOfSorted(t, input, sorted, r);
  }

  class SearchAutocomplete {
    var root: TrieNode
    var currentInput: string
    var currentNode: Option<TrieNode>

    /** Every end node holds its own path, and the cursor is the node at the typed input
        (None once the input has left the trie). */
    ghost predicate Valid()
      reads this
    {
      Labelled(root, []) && currentNode == Find(root, currentInput)
    }

    /** Insert every phrase with its count; a repeated phrase sums its counts. */
    constructor (phrases: seq<string>, counts: seq<int>)
      requires |counts| >= |phrases|
      ensures Valid() && currentInput == []
      ensures forall s :: FreqOf(root, s) == Tally(phrases, counts, s)
    {
      root := NewNode();
      currentInput := [];
      currentNode := None;
      new;
      for i := 0 to |phrases|
        invariant Labelled(root, []) && currentInput == []
        invariant forall s :: FreqOf(root, s) == Tally(phrases[..i], counts, s)
      {
        InsertSentence(phrases[i], counts[i]);
        assert phrases[..i + 1][..i] == phrases[..i];
      }
      assert phrases[..|phrases|] == phrases;
      currentNode := Some(root);
    }

    /** insert: store the sentence, adding frequency to what it already had. */
    method InsertSentence(sentence: string, frequency: int)
      requires Labelled(root, [])
      modifies this
      ensures Labelled(root, [])
      ensures forall x :: FreqOf(root, x) == if x == sentence then Some(OrZero(old(FreqOf(root, sentence))) + frequency) else old(FreqOf(root, x))
      ensures currentInput == old(currentInput) && currentNode == old(currentNode)
    {
      InsertFreqs(root, sentence, sentence, frequency);
      assert [] + sentence == sentence;
      InsertLabelled(root, [], sentence, frequency);
      root := Insert(root, sentence, sentence, frequency);
    }

    /** getSuggestions: '#' ends the sentence, anything else extends the input. */
    method GetSuggestions(ch: char) returns (r: seq<string>)
      requires Valid()
      modifies this
      ensures Valid()
      ensures ch == '#' ==> r == [] && currentInput == [] && currentNode == Some(root)
      ensures ch == '#' && old(currentInput) == [] ==> root == old(root)
      ensures ch == '#' && old(currentInput) != [] ==>
        forall x :: FreqOf(root, x) == if x == old(currentInput) then Some(OrZero(old(FreqOf(root, currentInput))) + 1) else old(FreqOf(root, x))
      ensures ch != '#' ==> root == old(root) && currentInput == old(currentInput) + [ch]
      ensures ch != '#' ==> IsTopSuggestions(r, root, currentInput)
    {
      if ch == '#' {
        r := HandleEndOfSentence();
      } else {
        r := HandleRegularCharacter(ch);
      }
    }

    /** handleEndOfSentence: count the typed sentence once more (or store it with 1) and reset. */
    method HandleEndOfSentence() returns (r: seq<string>)
      requires Valid()
      modifies this
      ensures Valid()
      ensures r == [] && currentInput == [] && currentNode == Some(root)
      ensures old(currentInput) == [] ==> root == old(root)
      ensures old(currentInput) != [] ==>
        forall x :: FreqOf(root, x) == if x == old(currentInput) then Some(OrZero(old(FreqOf(root, currentInput))) + 1) else old(FreqOf(root, x))
    {
      var sentence := currentInput;
      if sentence != [] {
        if currentNode.Some? && currentNode.value.endOfSentence {
          assert [] + sentence == sentence;
          IncrementIsInsert(root, [], sentence);
          InsertFreqs(root, sentence, sentence, 1);
          InsertLabelled(root, [], sentence, 1);
          root := IncrementAt(root, sentence);
        } else {
          InsertSentence(sentence, 1);
        }
      }
      currentInput := [];
      currentNode := Some(root);
      return [];
    }

    /** handleRegularCharacter: append, move the cursor one child down, and rank what lies below. */
    method HandleRegularCharacter(ch: char) returns (r: seq<string>)
      requires Valid()
      modifies this
      ensures Valid()
      ensures root == old(root) && currentInput == old(currentInput) + [ch]
      ensures old(currentNode).None? ==> r == [] && currentNode.None?
      ensures IsTopSuggestions(r, root, currentInput)
    {
      FindSnoc(root, currentInput, ch);
      currentInput := currentInput + [ch];
      if currentNode.None? {
        forall s | PrefixOf(currentInput, s) ensures FreqOf(root, s).None? {
          NoPathNoSentence(root, currentInput, s);
        }
        return [];
      }
      currentNode := currentNode.value.GetChild(ch);
      if currentNode.None? {
        forall s | PrefixOf(currentInput, s) ensures FreqOf(root, s).None? {
          NoPathNoSentence(root, currentInput, s);
        }
        return [];
      }
      LabelledShift(root, [], currentInput);
      assert [] + currentInput == currentInput;
      r := Suggest(root, currentInput, currentNode.value);
    }
  }
}
