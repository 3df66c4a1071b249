/** SentenceFrequency: a sentence with its frequency, ranked by frequency
    descending and then by String.compareTo ascending. */
module SentenceRanking {

  datatype SentenceFrequency = SentenceFrequency(sentence: string, frequency: int)

  /** Lexicographic order over chars, stated by first characters (the reference order). */
  predicate LexLess(s: string, t: string)
    decreases |s|
  {
    if s == [] then t != []
    else if t == [] then false
    else if s[0] != t[0] then s[0] < t[0]
    else LexLess(s[1..], t[1..])
  }

  /** The loop of String.compareTo from index k: the first differing char decides,
      otherwise the length difference. */
  function CompareFrom(s: string, t: string, k: nat): int
    requires k <= |s| && k <= |t|
    decreases |s| - k
  {
    if k == |s| || k == |t| then |s| - |t|
    else if s[k] != t[k] then s[k] as int - t[k] as int
    else CompareFrom(s, t, k + 1)
  }

  function CompareStrings(s: string, t: string): int
  {
    CompareFrom(s, t, 0)
  }

  lemma {:induction false} CompareFromSign(s: string, t: string, k: nat)
    requires k <= |s| && k <= |t|
    ensures CompareFrom(s, t, k) < 0 <==> LexLess(s[k..], t[k..])
    ensures CompareFrom(s, t, k) == 0 <==> s[k..] == t[k..]
    decreases |s| - k
  {
    if k == |s| || k == |t| {
    } else if s[k] != t[k] {
      assert s[k..][0] == s[k] && t[k..][0] == t[k];
    } else {
      CompareFromSign(s, t, k + 1);
      assert s[k..][1..] == s[k + 1..] && t[k..][1..] == t[k + 1..];
      if s[k + 1..] == t[k + 1..] {
        assert s[k..] == [s[k]] + s[k + 1..] && t[k..] == [t[k]] + t[k + 1..];
      }
    }
  }

  /** String.compareTo is negative exactly for the lexicographically smaller string and zero exactly for equal strings. */
  lemma CompareStringsSign(s: string, t: string)
    ensures CompareStrings(s, t) < 0 <==> LexLess(s, t)
    ensures CompareStrings(s, t) == 0 <==> s == t
  {
    CompareFromSign(s, t, 0);
    assert s[0..] == s && t[0..] == t;
  }

  lemma {:induction false} LexLessIrreflexive(s: string)
    ensures !LexLess(s, s)
    decreases |s|
  {
    if s != [] {
      LexLessIrreflexive(s[1..]);
    }
  }

  lemma {:induction false} LexLessTransitive(a: string, b: string, c: string)
    requires LexLess(a, b) && LexLess(b, c)
    ensures LexLess(a, c)
    decreases |a|
  {
    if a != [] && a[0] == b[0] && b[0] == c[0] {
      LexLessTransitive(a[1..], b[1..], c[1..]);
    }
  }

  lemma {:induction false} LexLessTotal(a: string, b: string)
    requires a != b
    ensures LexLess(a, b) || LexLess(b, a)
    decreases |a|
  {
    if a != [] && b != [] && a[0] == b[0] {
      assert a == [a[0]] + a[1..] && b == [b[0]] + b[1..];
      LexLessTotal(a[1..], b[1..]);
    }
  }

  /** The ranking: higher frequency first, then the smaller string. */
  predicate Before(a: SentenceFrequency, b: SentenceFrequency)
  {
    a.frequency > b.frequency || (a.frequency == b.frequency && LexLess(a.sentence, b.sentence))
  }

  predicate RankedNoLater(a: SentenceFrequency, b: SentenceFrequency)
  {
    a == b || Before(a, b)
  }

  /** SentenceFrequency.compareTo */
  function CompareTo(a: SentenceFrequency, b: SentenceFrequency): int
  {
    if a.frequency != b.frequency then b.frequency - a.frequency
    else CompareStrings(a.sentence, b.sentence)
  }

  /** compareTo agrees with the ranking, and is zero exactly on equal values (consistent with equals). */
  lemma CompareToRanks(a: SentenceFrequency, b: SentenceFrequency)
    ensures CompareTo(a, b) < 0 <==> Before(a, b)
    ensures CompareTo(a, b) == 0 <==> a == b
    ensures CompareTo(a, b) > 0 <==> Before(b, a)
  {
    CompareStringsSign(a.sentence, b.sentence);
    CompareStringsSign(b.sentence, a.sentence);
    if a.frequency == b.frequency && a.sentence != b.sentence {
      LexLessTotal(a.sentence, b.sentence);
      if LexLess(a.sentence, b.sentence) && LexLess(b.sentence, a.sentence) {
        LexLessTransitive(a.sentence, b.sentence, a.sentence);
        LexLessIrreflexive(a.sentence);
      }
    }
    if a == b {
      LexLessIrreflexive(a.sentence);
    }
  }

  lemma BeforeTransitive(a: SentenceFrequency, b: SentenceFrequency, c: SentenceFrequency)
    requires Before(a, b) && Before(b, c)
    ensures Before(a, c)
  {
    if a.frequency == b.frequency == c.frequency {
      LexLessTransitive(a.sentence, b.sentence, c.sentence);
    }
  }

  lemma RankedNoLaterTransitive(a: SentenceFrequency, b: SentenceFrequency, c: SentenceFrequency)
    requires RankedNoLater(a, b) && RankedNoLater(b, c)
    ensures RankedNoLater(a, c)
  {
    if a != b && b != c {
      BeforeTransitive(a, b, c);
    }
  }

  predicate Sorted(s: seq<SentenceFrequency>)
  {
    forall i, j :: 0 <= i < j < |s| ==> RankedNoLater(s[i], s[j])
  }

  /** One insertion step of the sort, comparing with compareTo. */
  function InsertByRank(x: SentenceFrequency, s: seq<SentenceFrequency>): (r: seq<SentenceFrequency>)
    ensures multiset(r) == multiset(s) + multiset{x}
  {
    if s == [] then [x]
    else if CompareTo(x, s[0]) <= 0 then [x] + s
    else
      assert s == [s[0]] + s[1..];
      [s[0]] + InsertByRank(x, s[1..])
  }

  lemma SortedCons(a: SentenceFrequency, r: seq<SentenceFrequency>)
    requires Sorted(r) && forall y :: y in r ==> RankedNoLater(a, y)
    ensures Sorted([a] + r)
  {
    forall i, j | 0 <= i < j < |r| + 1 ensures RankedNoLater(([a] + r)[i], ([a] + r)[j]) {
      if i == 0 {
        assert ([a] + r)[j] == r[j - 1] && r[j - 1] in r;
      } else {
        assert ([a] + r)[i] == r[i - 1] && ([a] + r)[j] == r[j - 1];
      }
    }
  }

  lemma {:induction false} InsertByRankSorted(x: SentenceFrequency, s: seq<SentenceFrequency>)
    requires Sorted(s)
    ensures Sorted(InsertByRank(x, s))
    decreases |s|
  {
    if s != [] {
      CompareToRanks(x, s[0]);
      assert forall y :: y in s[1..] ==> RankedNoLater(s[0], y) by {
        forall y | y in s[1..] ensures RankedNoLater(s[0], y) {
          var k :| 0 <= k < |s[1..]| && s[1..][k] == y;
          assert s[k + 1] == y;
        }
      }
      assert Sorted(s[1..]) by {
        forall i, j | 0 <= i < j < |s[1..]| ensures RankedNoLater(s[1..][i], s[1..][j]) {
          assert s[1..][i] == s[i + 1] && s[1..][j] == s[j + 1];
        }
      }
      assert s == [s[0]] + s[1..];
      if CompareTo(x, s[0]) <= 0 {
        forall y | y in s ensures RankedNoLater(x, y) {
          if y != s[0] {
            RankedNoLaterTransitive(x, s[0], y);
          }
        }
        SortedCons(x, s);
      } else {
        InsertByRankSorted(x, s[1..]);
        var r := InsertByRank(x, s[1..]);
        forall y | y in r ensures RankedNoLater(s[0], y) {
          assert y in multiset(r);
        }
        SortedCons(s[0], r);
      }
    }
  }

  /** Collections.sort by compareTo, as an insertion sort. */
  function SortByRank(s: seq<SentenceFrequency>): (r: seq<SentenceFrequency>)
    ensures multiset(r) == multiset(s)
  {
    if s == [] then []
    else
      assert s == [s[0]] + s[1..];
      InsertByRank(s[0], SortByRank(s[1..]))
  }

  lemma {:induction false} SortByRankSorted(s: seq<SentenceFrequency>)
    ensures Sorted(SortByRank(s))
  {
    if s != [] {
      SortByRankSorted(s[1..]);
      InsertByRankSorted(s[0], SortByRank(s[1..]));
    }
  }

  /** The worked example: ("hello",4) before ("hi",4) before ("hey",3). */
  lemma DocExampleOrder()
    ensures SortByRank([SentenceFrequency("hey", 3), SentenceFrequency("hi", 4), SentenceFrequency("hello", 4)]) ==
      [SentenceFrequency("hello", 4), SentenceFrequency("hi", 4), SentenceFrequency("hey", 3)]
  {
    SortHiHello();
    InsertHey();
  }

  lemma SortHiHello()
    ensures SortByRank([SentenceFrequency("hi", 4), SentenceFrequency("hello", 4)]) ==
      [SentenceFrequency("hello", 4), SentenceFrequency("hi", 4)]
  {
    assert CompareStrings("hi", "hello") == 4;
    assert SortByRank([SentenceFrequency("hello", 4)]) == [SentenceFrequency("hello", 4)];
  }

  lemma InsertHey()
    ensures InsertByRank(SentenceFrequency("hey", 3), [SentenceFrequency("hello", 4), SentenceFrequency("hi", 4)]) ==
      [SentenceFrequency("hello", 4), SentenceFrequency("hi", 4), SentenceFrequency("hey", 3)]
  {
    assert InsertByRank(SentenceFrequency("hey", 3), [SentenceFrequency("hi", 4)]) ==
      [SentenceFrequency("hi", 4), SentenceFrequency("hey", 3)];
  }
}
