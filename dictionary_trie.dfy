/** The dictionary's trie node and the meaning of a trie: the words it
    stores (paths to end-of-word nodes) and their meanings. */
module DictionaryTrie {
  import opened Wrappers

  datatype TrieNode = TrieNode(children: map<char, TrieNode>, meaning: Option<string>, endOfWord: bool)
  {
    predicate HasChild(c: char)
    {
      c in children
    }

    function GetChild(c: char): (r: Option<TrieNode>)
      ensures r.Some? <==> HasChild(c)
      ensures r.Some? ==> r.value == children[c]
    {
      if c in children then Some(children[c]) else None
    }

    /** Put the child for c, replacing any existing one. */
    function AddChild(c: char, node: TrieNode): (r: TrieNode)
      ensures r.GetChild(c) == Some(node)
      ensures forall d :: d != c ==> r.GetChild(d) == GetChild(d)
      ensures r.meaning == meaning && r.endOfWord == endOfWord
    {
      this.(children := children[c := node])
    }

    /** Store the meaning; this also marks the node as the end of a word, even for a null meaning. */
    function SetMeaning(m: Option<string>): (r: TrieNode)
      ensures r.meaning == m && r.endOfWord && r.children == children
    {
      this.(meaning := m, endOfWord := true)
    }

    /** Change only the end-of-word flag. */
    function SetEndOfWord(b: bool): (r: TrieNode)
      ensures r.endOfWord == b && r.meaning == meaning && r.children == children
    {
      this.(endOfWord := b)
    }
  }

  /** A new node: no children, no meaning, not the end of a word. */
  function NewNode(): (r: TrieNode)
    ensures r.children == map[] && r.meaning == None && !r.endOfWord
  {
    TrieNode(map[], None, false)
  }

  datatype SearchResult = SearchResult(word: string, meaning: Option<string>)

  /** The node reached from t along path s, if any. */
  function Find(t: TrieNode, s: string): Option<TrieNode>
    decreases |s|
  {
    if s == [] then Some(t)
    else if s[0] in t.children then Find(t.children[s[0]], s[1..])
    else None
  }

  predicate IsWord(t: TrieNode, w: string)
  {
    Find(t, w).Some? && Find(t, w).value.endOfWord
  }

  /** The meaning stored for a word (None for a non-word). */
  function MeaningAt(t: TrieNode, w: string): Option<string>
  {
    if IsWord(t, w) then Find(t, w).value.meaning else None
  }

  /** The finite set of words stored under t. */
  function Words(t: TrieNode): set<string>
    decreases t
  {
    (if t.endOfWord then {[]} else {}) +
    (set c, w | c in t.children && w in Words(t.children[c]) :: [c] + w)
  }

  lemma {:induction false} WordsAreWords(t: TrieNode, w: string)
    ensures w in Words(t) <==> IsWord(t, w)
    decreases |w|
  {
    if w != [] {
      var c, rest := w[0], w[1..];
      assert w == [c] + rest;
      if c in t.children {
        WordsAreWords(t.children[c], rest);
        if w in Words(t) {
          var c', w' :| c' in t.children && w' in Words(t.children[c']) && w == [c'] + w';
          assert c' == c && w' == rest;
        }
      }
    }
  }

  /** Every node below the root ends a word or has a child: nothing is left dangling. */
  predicate Lean(t: TrieNode)
    decreases t
  {
    forall c :: c in t.children ==>
      (t.children[c].endOfWord || |t.children[c].children| > 0) && Lean(t.children[c])
  }

  function Lower(c: char): char
  {
    if 'A' <= c <= 'Z' then (c as int + 32) as char else c
  }

  /** String.toLowerCase over ASCII letters. */
  function LowerCase(s: string): (r: string)
    ensures |r| == |s| && forall i :: 0 <= i < |s| ==> r[i] == Lower(s[i])
  {
    seq(|s|, i requires 0 <= i < |s| => Lower(s[i]))
  }

  lemma LowerCaseIdempotent(s: string)
    ensures LowerCase(LowerCase(s)) == LowerCase(s)
  {
  }

  // ----- insertion (addWord) -----

  /** The trie after addWord's walk: missing nodes created, meaning set at the end. */
  function Insert(t: TrieNode, w: string, m: Option<string>): TrieNode
    decreases |w|
  {
    if w == [] then t.SetMeaning(m)
    else
      var child := if t.HasChild(w[0]) then t.children[w[0]] else NewNode();
      t.AddChild(w[0], Insert(child, w[1..], m))
  }

  lemma {:induction false} InsertFind(t: TrieNode, w: string, m: Option<string>, x: string)
    ensures IsWord(Insert(t, w, m), x) <==> IsWord(t, x) || x == w
    ensures MeaningAt(Insert(t, w, m), x) == if x == w then m else MeaningAt(t, x)
    decreases |w|
  {
    if w != [] && x != [] && x[0] == w[0] {
      var child := if t.HasChild(w[0]) then t.children[w[0]] else NewNode();
      InsertFind(child, w[1..], m, x[1..]);
      if !t.HasChild(w[0]) {
        NewNodeEmpty(x[1..]);
      }
      assert x == w <==> x[1..] == w[1..];
    }
  }

  lemma InsertMeanings(t: TrieNode, w: string, m: Option<string>)
    ensures forall x :: MeaningAt(Insert(t, w, m), x) == if x == w then m else MeaningAt(t, x)
  {
    forall x ensures MeaningAt(Insert(t, w, m), x) == if x == w then m else MeaningAt(t, x) {
      InsertFind(t, w, m, x);
    }
  }

  lemma NewNodeEmpty(x: string)
    ensures !IsWord(NewNode(), x)
  {
  }

  lemma InsertWords(t: TrieNode, w: string, m: Option<string>)
    ensures Words(Insert(t, w, m)) == Words(t) + {w}
  {
    forall x ensures x in Words(Insert(t, w, m)) <==> x in Words(t) + {w} {
      WordsAreWords(Insert(t, w, m), x);
      WordsAreWords(t, x);
      InsertFind(t, w, m, x);
    }
  }

  /** Everything addWord's insertion promises, in one statement. */
  lemma InsertSummary(t: TrieNode, w: string, m: Option<string>)
    requires Lean(t)
    ensures Words(Insert(t, w, m)) == Words(t) + {w}
    ensures |Words(Insert(t, w, m))| == |Words(t)| + if w in Words(t) then 0 else 1
    ensures forall x :: MeaningAt(Insert(t, w, m), x) == if x == w then m else MeaningAt(t, x)
    ensures Lean(Insert(t, w, m))
  {
    InsertWords(t, w, m);
    InsertMeanings(t, w, m);
    InsertLean(t, w, m);
  }

  /** Hanging a lean child that ends a word or has children of its own
      under a lean node keeps it lean. */
  lemma LeanAddChild(t: TrieNode, c: char, n: TrieNode)
    requires Lean(t) && Lean(n) && (n.endOfWord || |n.children| > 0)
    ensures Lean(t.AddChild(c, n))
  {
    var children := t.children[c := n];
    assert t.AddChild(c, n).children == children;
    forall d | d in children
      ensures (children[d].endOfWord || |children[d].children| > 0) && Lean(children[d])
    {
      if d != c {
        assert children[d] == t.children[d];
      }
    }
  }

  lemma {:induction false} InsertLean(t: TrieNode, w: string, m: Option<string>)
    requires Lean(t)
    ensures Lean(Insert(t, w, m))
    decreases |w|
  {
    if w == [] {
      assert Insert(t, w, m).children == t.children;
    } else {
      var child := if t.HasChild(w[0]) then t.children[w[0]] else NewNode();
      InsertLean(child, w[1..], m);
      var n := Insert(child, w[1..], m);
      assert n.endOfWord || |n.children| > 0 by {
        if w[1..] != [] {
          assert w[1..][0] in n.children;
        }
      }
      LeanAddChild(t, w[0], n);
    }
  }

  // ----- prefixes -----

  lemma {:induction false} FindAppend(t: TrieNode, p: string, n: TrieNode, w: string)
    requires Find(t, p) == Some(n)
    ensures Find(t, p + w) == Find(n, w)
    decreases |p|
  {
    if p != [] {
      assert (p + w)[0] == p[0] && (p + w)[1..] == p[1..] + w;
      FindAppend(t.children[p[0]], p[1..], n, w);
    } else {
      assert p + w == w;
    }
  }

  /** In a lean trie every node below the root stores some word. */
  lemma {:induction false} LeanChildHasWord(t: TrieNode)
    requires Lean(t) && (t.endOfWord || |t.children| > 0)
    ensures exists w :: IsWord(t, w)
    decreases t
  {
    if !t.endOfWord {
      var c :| c in t.children;
      LeanChildHasWord(t.children[c]);
      var w :| IsWord(t.children[c], w);
      assert ([c] + w)[0] == c && ([c] + w)[1..] == w;
      assert IsWord(t, [c] + w);
    } else {
      assert IsWord(t, []);
    }
  }

  lemma {:induction false} LeanFindBelowRoot(t: TrieNode, p: string)
    requires Lean(t) && p != [] && Find(t, p).Some?
    ensures Lean(Find(t, p).value)
    ensures Find(t, p).value.endOfWord || |Find(t, p).value.children| > 0
    decreases |p|
  {
    if p[1..] != [] {
      LeanFindBelowRoot(t.children[p[0]], p[1..]);
    }
  }

  /** In a lean trie a non-empty path exists iff some stored word extends it. */
  lemma PrefixExistsIffWordExtends(t: TrieNode, p: string)
    requires Lean(t) && p != []
    ensures Find(t, p).Some? <==> exists w :: w in Words(t) && |p| <= |w| && w[..|p|] == p
  {
    if Find(t, p).Some? {
      PathReachesWord(t, p);
    }
    if exists w :: w in Words(t) && |p| <= |w| && w[..|p|] == p {
      var w :| w in Words(t) && |p| <= |w| && w[..|p|] == p;
      WordHasPath(t, p, w);
    }
  }

  lemma PathReachesWord(t: TrieNode, p: string)
    requires Lean(t) && p != [] && Find(t, p).Some?
    ensures exists w :: w in Words(t) && |p| <= |w| && w[..|p|] == p
  {
    var n := Find(t, p).value;
    LeanFindBelowRoot(t, p);
    LeanChildHasWord(n);
    var w :| IsWord(n, w);
    FindAppend(t, p, n, w);
    WordsAreWords(t, p + w);
    assert (p + w)[..|p|] == p;
  }

  lemma WordHasPath(t: TrieNode, p: string, w: string)
    requires w in Words(t) && |p| <= |w| && w[..|p|] == p
    ensures Find(t, p).Some?
  {
    WordsAreWords(t, w);
    assert p + w[|p|..] == w;
    FindPrefix(t, p, w[|p|..]);
  }

  lemma {:induction false} FindPrefix(t: TrieNode, p: string, rest: string)
    requires Find(t, p + rest).Some?
    ensures Find(t, p).Some?
    decreases |p|
  {
    if p != [] {
      assert (p + rest)[0] == p[0] && (p + rest)[1..] == p[1..] + rest;
      FindPrefix(t.children[p[0]], p[1..], rest);
    }
  }

  // ----- deletion (deleteHelper) -----

  /** deleteHelper with end-of-word cleared after the meaning is reset:
      the new node, and whether the parent should drop it. */
  function Delete(t: TrieNode, w: string): (TrieNode, bool)
    decreases |w|
  {
    if w == [] then
      if !t.endOfWord then (t, false)
      else
        var n := t.SetMeaning(None).SetEndOfWord(false);
        (n, |n.children| == 0)
    else if !t.HasChild(w[0]) then (t, false)
    else
      var (child, prune) := Delete(t.children[w[0]], w[1..]);
      if prune then
        var n := t.(children := t.children - {w[0]});
        (n, |n.children| == 0 && !n.endOfWord)
      else (t.AddChild(w[0], child), false)
  }

  /** deleteHelper as written: setEndOfWord(false) followed by setMeaning(null),
      which marks the node as a word end again. */
  function DeleteAsWritten(t: TrieNode, w: string): (TrieNode, bool)
    decreases |w|
  {
    if w == [] then
      if !t.endOfWord then (t, false)
      else
        var n := t.SetEndOfWord(false).SetMeaning(None);
        (n, |n.children| == 0)
    else if !t.HasChild(w[0]) then (t, false)
    else
      var (child, prune) := DeleteAsWritten(t.children[w[0]], w[1..]);
      if prune then
        var n := t.(children := t.children - {w[0]});
        (n, |n.children| == 0 && !n.endOfWord)
      else (t.AddChild(w[0], child), false)
  }

  lemma {:induction false} DeleteFind(t: TrieNode, w: string, x: string)
    requires IsWord(t, w)
    ensures IsWord(Delete(t, w).0, x) <==> IsWord(t, x) && x != w
    ensures x != w ==> MeaningAt(Delete(t, w).0, x) == MeaningAt(t, x)
    ensures Delete(t, w).1 ==> |Delete(t, w).0.children| == 0 && !Delete(t, w).0.endOfWord
    decreases |w|
  {
    var d := Delete(t, w).0;
    if w == [] {
      assert d.children == t.children;
      if x != [] {
        assert Find(d, x) == Find(t, x);
      }
    } else {
      var c := w[0];
      var (child, prune) := Delete(t.children[c], w[1..]);
      if x == [] {
        DeleteFind(t.children[c], w[1..], []);
        assert Find(d, x) == Some(d) && d.endOfWord == t.endOfWord;
      } else if x[0] == c {
        DeleteFind(t.children[c], w[1..], x[1..]);
        assert x == w <==> x[1..] == w[1..];
        if prune {
          assert Find(d, x) == None;
        } else {
          assert Find(d, x) == Find(child, x[1..]);
        }
      } else {
        DeleteFind(t.children[c], w[1..], []);
        assert x[0] in d.children <==> x[0] in t.children;
        if x[0] in t.children {
          assert d.children[x[0]] == t.children[x[0]];
        }
        assert Find(d, x) == Find(t, x);
      }
    }
  }

  lemma DeleteWords(t: TrieNode, w: string)
    requires IsWord(t, w)
    ensures Words(Delete(t, w).0) == Words(t) - {w}
  {
    forall x ensures x in Words(Delete(t, w).0) <==> x in Words(t) - {w} {
      WordsAreWords(Delete(t, w).0, x);
      WordsAreWords(t, x);
      DeleteFind(t, w, x);
    }
  }

  /** Deletion prunes: a lean trie stays lean, so no childless non-word node survives. */
  lemma {:induction false} DeleteLean(t: TrieNode, w: string)
    requires Lean(t) && IsWord(t, w)
    ensures Lean(Delete(t, w).0)
    ensures !Delete(t, w).1 && (t.endOfWord || |t.children| > 0) ==>
      Delete(t, w).0.endOfWord || |Delete(t, w).0.children| > 0
    decreases |w|
  {
    if w != [] {
      var (child, prune) := Delete(t.children[w[0]], w[1..]);
      DeleteLean(t.children[w[0]], w[1..]);
      if prune {
        assert Delete(t, w).0.children == t.children - {w[0]};
      }
    }
  }

  /** The written order keeps a deleted word that is a prefix of another stored word. */
  lemma {:induction false} DeleteAsWrittenKeepsPrefixWord(t: TrieNode, w: string, x: string)
    requires IsWord(t, w) && x != [] && IsWord(t, w + x)
    ensures IsWord(DeleteAsWritten(t, w).0, w)
    decreases |w|
  {
    if w == [] {
      assert x[0] in t.children;
    } else {
      assert (w + x)[0] == w[0] && (w + x)[1..] == w[1..] + x;
      DeleteAsWrittenKeepsPrefixWord(t.children[w[0]], w[1..], x);
    }
  }
}
