/** The autocomplete trie: sentences as paths, each end node holding its
    sentence and how often it was typed. */
module AutocompleteTrie {
  import opened Wrappers
  import opened SentenceRanking

  datatype TrieNode = TrieNode(children: map<char, TrieNode>, endOfSentence: bool, frequency: int, sentence: Option<string>)
  {
    predicate HasChild(c: char)
    {
      c in children
    }

    function GetChild(c: char): (r: Option<TrieNode>)
      ensures r.Some? <==> HasChild(c)
      ensures r.Some? ==> r.value == children[c]
    {
      if c in children then Some(children[c]) else None
    }

    /** getOrCreateChild, as the parent it leaves behind: a new child only when none exists. */
    function GetOrCreateChild(c: char): (r: TrieNode)
      ensures r.HasChild(c)
      ensures HasChild(c) ==> r == this
      ensures !HasChild(c) ==> r.children == children[c := NewNode()]
      ensures r.endOfSentence == endOfSentence && r.frequency == frequency && r.sentence == sentence
    {
      if c in children then this else this.(children := children[c := NewNode()])
    }

    /** markAsEndOfSentence: flag, sentence and frequency set together. */
    function MarkAsEndOfSentence(s: string, f: int): (r: TrieNode)
      ensures r.endOfSentence && r.sentence == Some(s) && r.frequency == f && r.children == children
    {
      this.(endOfSentence := true, sentence := Some(s), frequency := f)
    }

    function IncrementFrequency(): (r: TrieNode)
      ensures r.frequency == frequency + 1
      ensures r.children == children && r.endOfSentence == endOfSentence && r.sentence == sentence
    {
      this.(frequency := frequency + 1)
    }
  }

  /** A new node: no children, not an end node, frequency 0, no sentence. */
  function NewNode(): (r: TrieNode)
    ensures r.children == map[] && !r.endOfSentence && r.frequency == 0 && r.sentence == None
  {
    TrieNode(map[], false, 0, None)
  }

  predicate PrefixOf(p: string, s: string)
  {
    |p| <= |s| && s[..|p|] == p
  }

  function Find(t: TrieNode, s: string): Option<TrieNode>
    decreases |s|
  {
    if s == [] then Some(t)
    else if s[0] in t.children then Find(t.children[s[0]], s[1..])
    else None
  }

  /** The stored frequency of sentence s, if s is stored. */
  function FreqOf(t: TrieNode, s: string): Option<int>
  {
    if Find(t, s).Some? && Find(t, s).value.endOfSentence then Some(Find(t, s).value.frequency) else None
  }

  function OrZero(f: Option<int>): int
  {
    if f.Some? then f.value else 0
  }

  /** Every end node reached by path w from a node at path p stores the sentence p + w. */
  predicate Labelled(t: TrieNode, p: string)
    decreases t
  {
    (t.endOfSentence ==> t.sentence == Some(p)) &&
    forall c :: c in t.children ==> Labelled(t.children[c], p + [c])
  }

  /** insert: walk (creating nodes) and mark the end, adding to an existing frequency. */
  function Insert(t: TrieNode, w: string, s: string, f: int): TrieNode
    decreases |w|
  {
    if w == [] then
      if t.endOfSentence then t.MarkAsEndOfSentence(s, t.frequency + f) else t.MarkAsEndOfSentence(s, f)
    else
      var t1 := t.GetOrCreateChild(w[0]);
      t1.(children := t1.children[w[0] := Insert(t1.children[w[0]], w[1..], s, f)])
  }

  /** incrementFrequency on the node at path w. */
  function IncrementAt(t: TrieNode, w: string): TrieNode
    requires Find(t, w).Some?
    decreases |w|
  {
    if w == [] then t.IncrementFrequency()
    else t.(children := t.children[w[0] := IncrementAt(t.children[w[0]], w[1..])])
  }

  lemma {:induction false} InsertFreq(t: TrieNode, w: string, s: string, f: int, x: string)
    ensures FreqOf(Insert(t, w, s, f), x) == if x == w then Some(OrZero(FreqOf(t, w)) + f) else FreqOf(t, x)
    decreases |w|
  {
    if w != [] && x != [] && x[0] == w[0] {
      var child := if t.HasChild(w[0]) then t.children[w[0]] else NewNode();
      InsertFreq(child, w[1..], s, f, x[1..]);
      assert x == w <==> x[1..] == w[1..];
      if !t.HasChild(w[0]) {
        NewNodeStoresNothing(w[1..]);
        NewNodeStoresNothing(x[1..]);
      }
    } else if w != [] && x == [] {
    } else if w != [] {
    }
  }

  lemma NewNodeStoresNothing(x: string)
    ensures FreqOf(NewNode(), x) == None
  {
  }

  lemma InsertFreqs(t: TrieNode, w: string, s: string, f: int)
    ensures forall x :: FreqOf(Insert(t, w, s, f), x) == if x == w then Some(OrZero(FreqOf(t, w)) + f) else FreqOf(t, x)
  {
    forall x ensures FreqOf(Insert(t, w, s, f), x) == if x == w then Some(OrZero(FreqOf(t, w)) + f) else FreqOf(t, x) {
      InsertFreq(t, w, s, f, x);
    }
  }

  /** Inserting w with its own path as the sentence keeps every end node labelled by its path. */
  lemma {:induction false} InsertLabelled(t: TrieNode, p: string, w: string, f: int)
    requires Labelled(t, p)
    ensures Labelled(Insert(t, w, p + w, f), p)
    decreases |w|
  {
    if w == [] {
      assert p + w == p;
    } else {
      var c := w[0];
      var child := if t.HasChild(c) then t.children[c] else NewNode();
      assert Labelled(child, p + [c]);
      assert (p + [c]) + w[1..] == p + w;
      InsertLabelled(child, p + [c], w[1..], f);
    }
  }

  /** Incrementing a stored sentence is inserting it once more. */
  lemma {:induction false} IncrementIsInsert(t: TrieNode, p: string, w: string)
    requires Labelled(t, p) && FreqOf(t, w).Some?
    ensures IncrementAt(t, w) == Insert(t, w, p + w, 1)
    decreases |w|
  {
    if w == [] {
      assert p + w == p;
    } else {
      assert (p + [w[0]]) + w[1..] == p + w;
      IncrementIsInsert(t.children[w[0]], p + [w[0]], w[1..]);
    }
  }

  lemma {:induction false} FindSnoc(t: TrieNode, s: string, c: char)
    ensures Find(t, s + [c]) == if Find(t, s).Some? then Find(t, s).value.GetChild(c) else None
    decreases |s|
  {
    if s != [] {
      assert (s + [c])[0] == s[0] && (s + [c])[1..] == s[1..] + [c];
      if s[0] in t.children {
        FindSnoc(t.children[s[0]], s[1..], c);
      }
    }
  }

  lemma {:induction false} FindAppend(t: TrieNode, p: string, n: TrieNode, w: string)
    requires Find(t, p) == Some(n)
    ensures Find(t, p + w) == Find(n, w)
    decreases |p|
  {
    if p != [] {
      assert (p + w)[0] == p[0] && (p + w)[1..] == p[1..] + w;
      FindAppend(t.children[p[0]], p[1..], n, w);
    } else {
      assert p + w == w;
    }
  }

  lemma {:induction false} FindPrefix(t: TrieNode, p: string, rest: string)
    requires Find(t, p + rest).Some?
    ensures Find(t, p).Some?
    decreases |p|
  {
    if p != [] {
      assert (p + rest)[0] == p[0] && (p + rest)[1..] == p[1..] + rest;
      FindPrefix(t.children[p[0]], p[1..], rest);
    }
  }

  /** Once no node matches a prefix, no stored sentence has that prefix. */
  lemma NoPathNoSentence(t: TrieNode, p: string, s: string)
    requires Find(t, p).None? && PrefixOf(p, s)
    ensures FreqOf(t, s).None?
  {
    if FreqOf(t, s).Some? {
      assert p + s[|p|..] == s;
      FindPrefix(t, p, s[|p|..]);
    }
  }

  /** A dead end stays a dead end whatever is typed next. */
  lemma DeadEndPersists(t: TrieNode, p: string, c: char)
    requires Find(t, p).None?
    ensures Find(t, p + [c]).None?
  {
    FindSnoc(t, p, c);
  }

  /** What collecting below the node at path p reports for e. */
  predicate IsEntry(node: TrieNode, p: string, e: SentenceFrequency)
  {
    PrefixOf(p, e.sentence) && FreqOf(node, e.sentence[|p|..]) == Some(e.frequency)
  }

  lemma EntryUnfold(node: TrieNode, p: string, e: SentenceFrequency)
    ensures IsEntry(node, p, e) <==>
      (e.sentence == p && node.endOfSentence && e.frequency == node.frequency) ||
      (PrefixOf(p, e.sentence) && |e.sentence| > |p| && e.sentence[|p|] in node.children &&
       IsEntry(node.children[e.sentence[|p|]], p + [e.sentence[|p|]], e))
  {
    if PrefixOf(p, e.sentence) && |e.sentence| > |p| {
      var c := e.sentence[|p|];
      assert e.sentence[|p|..][0] == c;
      assert e.sentence[|p|..][1..] == e.sentence[|p| + 1..];
      assert e.sentence[..|p| + 1] == p + [c];
    }
  }

  lemma EntryAtPath(t: TrieNode, p: string, n: TrieNode, e: SentenceFrequency)
    requires Find(t, p) == Some(n)
    ensures IsEntry(n, p, e) <==> PrefixOf(p, e.sentence) && FreqOf(t, e.sentence) == Some(e.frequency)
  {
    if PrefixOf(p, e.sentence) {
      FindAppend(t, p, n, e.sentence[|p|..]);
      assert p + e.sentence[|p|..] == e.sentence;
    }
  }

  /** Labelled at path q, the node at w below it is labelled at q + w. */
  lemma {:induction false} LabelledShift(t: TrieNode, q: string, w: string)
    requires Labelled(t, q) && Find(t, w).Some?
    ensures Labelled(Find(t, w).value, q + w)
    decreases |w|
  {
    if w == [] {
      assert q + w == q;
    } else {
      assert (q + [w[0]]) + w[1..] == q + w;
      LabelledShift(t.children[w[0]], q + [w[0]], w[1..]);
    }
  }
}
