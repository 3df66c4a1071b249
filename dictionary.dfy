/** The dictionary service: a trie of lower-cased words with meanings,
    and a counter of stored words. */
module DictionaryService {
  import opened Wrappers
  import opened DictionaryTrie

  predicate PrefixOf(p: string, w: string)
  {
    |p| <= |w| && w[..|p|] == p
  }

  /** e is what collecting from node, reached by path prefix, reports for one of node's words. */
  predicate IsEntry(node: TrieNode, prefix: string, e: SearchResult)
  {
    PrefixOf(prefix, e.word) && IsWord(node, e.word[|prefix|..]) &&
    e.meaning == MeaningAt(node, e.word[|prefix|..])
  }

  /** Pattern match: same length, '.' matches any one character. */
  predicate Matches(pattern: string, w: string)
  {
    |pattern| == |w| && forall i :: 0 <= i < |w| ==> pattern[i] == '.' || pattern[i] == w[i]
  }

  /** e is what the pattern search, at node with the matched text current, reports. */
  predicate IsPatternEntry(node: TrieNode, pattern: string, current: string, e: SearchResult)
  {
    PrefixOf(current, e.word) && Matches(pattern, e.word[|current|..]) &&
    IsWord(node, e.word[|current|..]) && e.meaning == MeaningAt(node, e.word[|current|..])
  }

  predicate DistinctWords(s: seq<SearchResult>)
  {
    forall i, j :: 0 <= i < j < |s| ==> s[i].word != s[j].word
  }

  function WordsOf(s: seq<SearchResult>): set<string>
  {
    set e | e in s :: e.word
  }

  lemma {:induction false} DistinctWordsCount(s: seq<SearchResult>)
    requires DistinctWords(s)
    ensures |WordsOf(s)| == |s|
  {
    if s != [] {
      var init := s[..|s| - 1];
      assert s == init + [s[|s| - 1]];
      assert DistinctWords(init);
      DistinctWordsCount(init);
      assert WordsOf(s) == WordsOf(init) + {s[|s| - 1].word};
      assert s[|s| - 1].word !in WordsOf(init);
    }
  }

  /** One level of collectWords: the node's own word, or a word below one child. */
  lemma EntryUnfold(node: TrieNode, prefix: string, e: SearchResult)
    ensures IsEntry(node, prefix, e) <==>
      (e.word == prefix && node.endOfWord && e.meaning == node.meaning) ||
      (PrefixOf(prefix, e.word) && |e.word| > |prefix| && e.word[|prefix|] in node.children &&
       IsEntry(node.children[e.word[|prefix|]], prefix + [e.word[|prefix|]], e))
  {
    if PrefixOf(prefix, e.word) && |e.word| > |prefix| {
      var c := e.word[|prefix|];
      assert e.word[|prefix|..][0] == c;
      assert e.word[|prefix|..][1..] == e.word[|prefix| + 1..];
      assert e.word[..|prefix| + 1] == prefix + [c];
    }
  }

  lemma PatternEntryUnfold(node: TrieNode, pattern: string, current: string, e: SearchResult)
    requires pattern != []
    ensures IsPatternEntry(node, pattern, current, e) <==>
      (PrefixOf(current, e.word) && |e.word| > |current| && e.word[|current|] in node.children &&
       (pattern[0] == '.' || pattern[0] == e.word[|current|]) &&
       IsPatternEntry(node.children[e.word[|current|]], pattern[1..], current + [e.word[|current|]], e))
  {
    if PrefixOf(current, e.word) && |e.word| > |current| {
      var c := e.word[|current|];
      var w := e.word[|current|..];
      assert w[0] == c && w[1..] == e.word[|current| + 1..];
      assert e.word[..|current| + 1] == current + [c];
      if Matches(pattern[1..], w[1..]) && (pattern[0] == '.' || pattern[0] == c) {
        assert forall i :: 1 <= i < |w| ==> w[i] == w[1..][i - 1];
      }
    }
  }

  /** The entries collected at node so far: its own word, and the words
      below each child in done. */
  ghost predicate CollectedFrom(node: TrieNode, prefix: string, done: set<char>, seg: seq<SearchResult>)
  {
    forall e :: e in seg <==>
      (e.word == prefix && node.endOfWord && e.meaning == node.meaning) ||
      (PrefixOf(prefix, e.word) && |e.word| > |prefix| && e.word[|prefix|] in done &&
       e.word[|prefix|] in node.children && IsEntry(node.children[e.word[|prefix|]], prefix + [e.word[|prefix|]], e))
  }

  /** Appending the words below one more child keeps the collection exact
      and its words distinct. */
  lemma CollectStep(node: TrieNode, prefix: string, done: set<char>, c: char,
                    before: seq<SearchResult>, batch: seq<SearchResult>)
    requires c in node.children && c !in done
    requires CollectedFrom(node, prefix, done, before) && DistinctWords(before)
    requires forall e :: e in batch <==> IsEntry(node.children[c], prefix + [c], e)
    requires DistinctWords(batch)
    ensures CollectedFrom(node, prefix, done + {c}, before + batch)
    ensures DistinctWords(before + batch)
  {
    forall e | e in batch
      ensures PrefixOf(prefix, e.word) && |e.word| > |prefix| && e.word[|prefix|] == c
    {
      assert e.word[..|prefix| + 1] == prefix + [c];
    }
    forall i, j | 0 <= i < |before| && 0 <= j < |batch|
      ensures before[i].word != batch[j].word
    {
      assert before[i] in before && batch[j] in batch;
    }
  }

  /** Once every child is done, the collection is exactly the entries
      below node. */
  lemma CollectDone(node: TrieNode, prefix: string, seg: seq<SearchResult>)
    requires CollectedFrom(node, prefix, node.children.Keys, seg)
    ensures forall e :: e in seg <==> IsEntry(node, prefix, e)
  {
    forall e ensures e in seg <==> IsEntry(node, prefix, e) {
      EntryUnfold(node, prefix, e);
    }
  }

  /** collectWords: appends, in child-map order, every word below node with its meaning. */
  method CollectWords(node: TrieNode, prefix: string, results: seq<SearchResult>) returns (out: seq<SearchResult>)
    ensures |out| >= |results| && out[..|results|] == results
    ensures forall e :: e in out[|results|..] <==> IsEntry(node, prefix, e)
    ensures DistinctWords(out[|results|..])
    decreases node
  {
    out := results;
    if node.endOfWord {
      out := out + [SearchResult(prefix, node.meaning)];
    }
    var keys := node.children.Keys;
    ghost var done: set<char> := {};
    while keys != {}
      invariant keys + done == node.children.Keys && keys !! done
      invariant |out| >= |results| && out[..|results|] == results
      invariant CollectedFrom(node, prefix, done, out[|results|..])
      invariant DistinctWords(out[|results|..])
      decreases keys
    {
      var c :| c in keys;
      ghost var before := out[|results|..];
      out := CollectWords(node.children[c], prefix + [c], out);
      ghost var batch := out[|before| + |results|..];
      assert out[|results|..] == before + batch;
      CollectStep(node, prefix, done, c, before, batch);
      keys := keys - {c};
      done := done + {c};
    }
    CollectDone(node, prefix, out[|results|..]);
  }

  /** Two batches of distinct words, told apart by the character after the
      common prefix, stay distinct when appended. */
  lemma AppendBranchDistinct(current: string, done: set<char>, k: char,
                             before: seq<SearchResult>, batch: seq<SearchResult>)
    requires k !in done && DistinctWords(before) && DistinctWords(batch)
    requires forall e :: e in before ==> |e.word| > |current| && e.word[|current|] in done
    requires forall e :: e in batch ==> |e.word| > |current| && e.word[|current|] == k
    ensures DistinctWords(before + batch)
  {
    forall i, j | 0 <= i < |before| && 0 <= j < |batch|
      ensures before[i].word != batch[j].word
    {
      assert before[i] in before && batch[j] in batch;
    }
  }

  /** searchPatternHelper: appends every word below node matching pattern from index on. */
  method SearchPatternHelper(node: TrieNode, pattern: string, index: nat, current: string, results: seq<SearchResult>)
      returns (out: seq<SearchResult>)
    requires index <= |pattern|
    ensures |out| >= |results| && out[..|results|] == results
    ensures forall e :: e in out[|results|..] <==> IsPatternEntry(node, pattern[index..], current, e)
    ensures DistinctWords(out[|results|..])
    decreases |pattern| - index
  {
    if index == |pattern| {
      out := results;
      if node.endOfWord {
        out := out + [SearchResult(current, node.meaning)];
      }
      forall e ensures e in out[|results|..] <==> IsPatternEntry(node, pattern[index..], current, e) {
        if IsPatternEntry(node, pattern[index..], current, e) {
          assert e.word == current;
        }
      }
      return;
    }
    var c := pattern[index];
    assert pattern[index..][0] == c && pattern[index..][1..] == pattern[index + 1..];
    if c == '.' {
      out := results;
      var keys := node.children.Keys;
      ghost var done: set<char> := {};
      while keys != {}
        invariant keys + done == node.children.Keys && keys !! done
        invariant |out| >= |results| && out[..|results|] == results
        invariant forall e :: e in out[|results|..] <==>
          (PrefixOf(current, e.word) && |e.word| > |current| && e.word[|current|] in done &&
           IsPatternEntry(node.children[e.word[|current|]], pattern[index + 1..], current + [e.word[|current|]], e))
        invariant DistinctWords(out[|results|..])
        decreases keys
      {
        var k :| k in keys;
        ghost var before := out[|results|..];
        out := SearchPatternHelper(node.children[k], pattern, index + 1, current + [k], out);
        ghost var batch := out[|before| + |results|..];
        assert out[|results|..] == before + batch;
        forall e | e in batch
          ensures PrefixOf(current, e.word) && |e.word| > |current| && e.word[|current|] == k
        {
          assert e.word[..|current| + 1] == current + [k];
        }
        AppendBranchDistinct(current, done, k, before, batch);
        keys := keys - {k};
        done := done + {k};
      }
    } else if node.HasChild(c) {
      out := SearchPatternHelper(node.children[c], pattern, index + 1, current + [c], results);
      forall e | e in out[|results|..]
        ensures PrefixOf(current, e.word) && |e.word| > |current| && e.word[|current|] == c
      {
        assert e.word[..|current| + 1] == current + [c];
      }
    } else {
      out := results;
    }
    forall e ensures e in out[|results|..] <==> IsPatternEntry(node, pattern[index..], current, e) {
      PatternEntryUnfold(node, pattern[index..], current, e);
    }
  }

  /** What collecting below the node at path p reports, in terms of the whole trie. */
  lemma EntryAtPath(t: TrieNode, p: string, n: TrieNode, e: SearchResult)
    requires Find(t, p) == Some(n)
    ensures IsEntry(n, p, e) <==> PrefixOf(p, e.word) && IsWord(t, e.word) && e.meaning == MeaningAt(t, e.word)
  {
    if PrefixOf(p, e.word) {
      FindAppend(t, p, n, e.word[|p|..]);
      assert p + e.word[|p|..] == e.word;
    }
  }

  lemma PatternAtRoot(t: TrieNode, pattern: string, e: SearchResult)
    ensures IsPatternEntry(t, pattern, [], e) <==>
      IsWord(t, e.word) && Matches(pattern, e.word) && e.meaning == MeaningAt(t, e.word)
  {
    assert e.word[0..] == e.word;
  }

  const EmptyWord := "Word cannot be null or empty"

  class Dictionary {
    var root: TrieNode
    var wordCount: int

    /** The counter matches the stored words and no dangling node is kept. */
    ghost predicate Valid()
      reads this
    {
      wordCount == |Words(root)| && Lean(root)
    }

    constructor ()
      ensures Valid() && Words(root) == {}
    {
      root := NewNode();
      wordCount := 0;
      assert Words(NewNode()) == {};
    }

    /** addWord: an empty word is rejected; otherwise the lower-cased word is stored
        (or its meaning overwritten) and counted once. */
    method AddWord(word: string, meaning: Option<string>) returns (r: Outcome<string>)
      requires Valid()
      modifies this
      ensures Valid()
      ensures word == [] ==> r == Fail(EmptyWord) && root == old(root) && wordCount == old(wordCount)
      ensures word != [] ==> r.Pass? && Words(root) == old(Words(root)) + {LowerCase(word)}
      ensures word != [] ==> wordCount == old(wordCount) + if LowerCase(word) in old(Words(root)) then 0 else 1
      ensures word != [] ==> forall x :: MeaningAt(root, x) == if x == LowerCase(word) then meaning else old(MeaningAt(root, x))
    {
      if word == [] {
        return Fail(EmptyWord);
      }
      var w := LowerCase(word);
      var node := FindNode(w);
      ghost var t := root;
      WordsAreWords(t, w);
      var isNew := node.None? || !node.value.endOfWord;
      assert isNew <==> w !in Words(t);
      InsertSummary(t, w, meaning);
      root := Insert(root, w, meaning);
      if isNew {
        wordCount := wordCount + 1;
      }
      assert w == LowerCase(word) && t == old(root);
      return Pass;
    }

    /** findNode: walk the path, stopping at the first missing child. */
    method FindNode(s: string) returns (r: Option<TrieNode>)
      ensures r == Find(root, s)
    {
      var current := root;
      var i := 0;
      while i < |s|
        invariant 0 <= i <= |s|
        invariant Find(root, s) == Find(current, s[i..])
      {
        assert s[i..][0] == s[i] && s[i..][1..] == s[i + 1..];
        if !current.HasChild(s[i]) {
          return None;
        }
        current := current.children[s[i]];
        i := i + 1;
      }
      return Some(current);
    }

    method GetMeaning(word: string) returns (m: Option<string>)
      ensures m == if word == [] then None else MeaningAt(root, LowerCase(word))
    {
      if word == [] {
        return None;
      }
      var node := FindNode(LowerCase(word));
      if node.Some? && node.value.endOfWord {
        return node.value.meaning;
      }
      return None;
    }

    method ContainsWord(word: string) returns (b: bool)
      ensures b <==> word != [] && LowerCase(word) in Words(root)
    {
      if word == [] {
        return false;
      }
      var node := FindNode(LowerCase(word));
      WordsAreWords(root, LowerCase(word));
      return node.Some? && node.value.endOfWord;
    }

    /** startsWith: some stored word begins with the lower-cased prefix. */
    method StartsWith(prefix: string) returns (b: bool)
      requires Valid()
      ensures b <==> prefix != [] && exists w :: w in Words(root) && PrefixOf(LowerCase(prefix), w)
    {
      if prefix == [] {
        return false;
      }
      var node := FindNode(LowerCase(prefix));
      PrefixExistsIffWordExtends(root, LowerCase(prefix));
      return node.Some?;
    }

    /** searchByPrefix: exactly the stored words with the prefix, with their meanings. */
    method SearchByPrefix(prefix: string) returns (rs: seq<SearchResult>)
      ensures forall e :: e in rs <==>
        prefix != [] && e.word in Words(root) && PrefixOf(LowerCase(prefix), e.word) && e.meaning == MeaningAt(root, e.word)
      ensures DistinctWords(rs)
    {
      if prefix == [] {
        return [];
      }
      var p := LowerCase(prefix);
      var node := FindNode(p);
      if node.Some? {
        rs := CollectWords(node.value, p, []);
        assert rs[0..] == rs;
        forall e ensures e in rs <==> e.word in Words(root) && PrefixOf(p, e.word) && e.meaning == MeaningAt(root, e.word) {
          EntryAtPath(root, p, node.value, e);
          WordsAreWords(root, e.word);
        }
      } else {
        rs := [];
        forall e: SearchResult | e.word in Words(root) && PrefixOf(p, e.word)
          ensures false
        {
          WordHasPath(root, p, e.word);
        }
      }
    }

    /** searchByPattern: exactly the stored words matching the lower-cased pattern. */
    method SearchByPattern(pattern: string) returns (rs: seq<SearchResult>)
      ensures forall e :: e in rs <==>
        pattern != [] && e.word in Words(root) && Matches(LowerCase(pattern), e.word) && e.meaning == MeaningAt(root, e.word)
      ensures DistinctWords(rs)
    {
      if pattern == [] {
        return [];
      }
      var p := LowerCase(pattern);
      rs := SearchPatternHelper(root, p, 0, [], []);
      assert rs[0..] == rs && p[0..] == p;
      forall e ensures e in rs <==> e.word in Words(root) && Matches(p, e.word) && e.meaning == MeaningAt(root, e.word) {
        PatternAtRoot(root, p, e);
        WordsAreWords(root, e.word);
      }
    }

    /** deleteWord: a stored word is removed, uncounted and its dead branch pruned;
        anything else changes nothing. */
    method DeleteWord(word: string) returns (deleted: bool)
      requires Valid()
      modifies this
      ensures Valid()
      ensures deleted <==> word != [] && LowerCase(word) in old(Words(root))
      ensures deleted ==> Words(root) == old(Words(root)) - {LowerCase(word)} && wordCount == old(wordCount) - 1
      ensures deleted ==> forall x :: x != LowerCase(word) ==> MeaningAt(root, x) == old(MeaningAt(root, x))
      ensures !deleted ==> root == old(root) && wordCount == old(wordCount)
    {
      if word == [] {
        return false;
      }
      var w := LowerCase(word);
      LowerCaseIdempotent(word);
      var present := ContainsWord(w);
      if !present {
        return false;
      }
      WordsAreWords(root, w);
      forall x | x != w ensures MeaningAt(Delete(root, w).0, x) == MeaningAt(root, x) {
        DeleteFind(root, w, x);
      }
      DeleteWords(root, w);
      DeleteLean(root, w);
      root := Delete(root, w).0;
      wordCount := wordCount - 1;
      return true;
    }

    /** getAllWords: every stored word once, with its meaning. */
    method GetAllWords() returns (rs: seq<SearchResult>)
      ensures forall e :: e in rs <==> e.word in Words(root) && e.meaning == MeaningAt(root, e.word)
      ensures Valid() ==> |rs| == wordCount
    {
      rs := CollectWords(root, [], []);
      assert rs[0..] == rs;
      forall e ensures e in rs <==> e.word in Words(root) && e.meaning == MeaningAt(root, e.word) {
        EntryAtPath(root, [], root, e);
        WordsAreWords(root, e.word);
        assert e.word[..0] == [];
      }
      DistinctWordsCount(rs);
      assert WordsOf(rs) == Words(root) by {
        forall w | w in Words(root) ensures w in WordsOf(rs) {
          assert SearchResult(w, MeaningAt(root, w)) in rs;
        }
      }
    }

    method GetWordCount() returns (n: int)
      requires Valid()
      ensures n == |Words(root)|
    {
      return wordCount;
    }
  }

  /** With "app" and "apple" stored, the written deletion of "app" leaves "app" stored
      although deleteWord has already decremented the counter. */
  lemma AppSurvivesDeleteAsWritten()
    ensures var t := Insert(Insert(NewNode(), "app", None), "apple", None);
      IsWord(DeleteAsWritten(t, "app").0, "app")
  {
    var t0 := Insert(NewNode(), "app", None);
    var t := Insert(t0, "apple", None);
    InsertFind(NewNode(), "app", None, "app");
    InsertFind(t0, "apple", None, "app");
    InsertFind(t0, "apple", None, "apple");
    assert "app" + "le" == "apple";
    DeleteAsWrittenKeepsPrefixWord(t, "app", "le");
  }
}
