/** The counting pass of `generate_bigram_analysis` in main.py: every word
    is scanned at every offset, the two-character slice there becomes a
    key, and the dictionary `unique` maps each key to the number of times
    it was seen.  Python dictionaries iterate in first-insertion order, so
    the dictionary is modelled as a map together with that order. */
module Analysis {
  import opened BigramKeys

  /** A Python dict from keys to counts: `counts` is its content and
      `order` the order in which its keys were first inserted, which is the
      order `for key in results` visits them. */
  datatype Dict = Dict(counts: map<Bigram, nat>, order: seq<Bigram>)
  {
    /** Every key appears in `order` exactly once. */
    ghost predicate Valid()
    {
      && (forall i, j :: 0 <= i < j < |order| ==> order[i] != order[j])
      && (forall k :: k in counts <==> k in order)
    }

    /** One visit of lines 72-75 of main.py: a key not yet present is
        stored with count 1 and joins the end of the iteration order; a
        present key has its count incremented and keeps its place. */
    function Insert(key: Bigram): Dict
    {
      if key !in counts then Dict(counts[key := 1], order + [key])
      else Dict(counts[key := counts[key] + 1], order)
    }
  }

  /** Processing one occurrence changes exactly one entry: the key ends up
      with its previous count (0 when absent) plus one, and every other key
      and count is as before.  A new key is appended to the iteration order,
      a present one keeps its place. */
  lemma InsertChangesOneEntry(d: Dict, key: Bigram)
    ensures key in d.Insert(key).counts
    ensures d.Insert(key).counts[key] == (if key in d.counts then d.counts[key] else 0) + 1
    ensures forall k :: k != key ==> (k in d.Insert(key).counts <==> k in d.counts)
    ensures forall k :: k != key && k in d.counts ==> d.Insert(key).counts[k] == d.counts[k]
    ensures d.Insert(key).order == if key in d.counts then d.order else d.order + [key]
  {
  }

  /** Inserting keeps every key listed exactly once. */
  lemma InsertValid(d: Dict, key: Bigram)
    requires d.Valid()
    ensures d.Insert(key).Valid()
  {
  }

  // ---------------------------------------------------------------------
  // Specification of the scan
  // ---------------------------------------------------------------------

  /** The keys the inner loop builds for one word, in offset order: one
      per offset 0 .. |word| - 2, so none for a word shorter than two. */
  function Extract(word: string): (r: seq<Bigram>)
    ensures |r| == if |word| < 2 then 0 else |word| - 1
  {
    if |word| < 2 then []
    else
      Extract(word[..|word| - 1]) + [Bigram(|word| - 1, word[|word| - 2..])]
  }

  /** The key built at offset n is `Bigram(n + 1, word[n..n + 2])`: the
      1-based position in the `bigram` field and the two-character slice
      in the `position` field, as the swapped constructor call stores them. */
  lemma {:induction false} ExtractAt(word: string, n: nat)
    requires n < |word| - 1
    ensures Extract(word)[n] == Bigram(n + 1, word[n..n + 2])
  {
    if n < |word| - 2 {
      var shorter := word[..|word| - 1];
      ExtractAt(shorter, n);
      assert shorter[n..n + 2] == word[n..n + 2];
    }
  }

  /** Sum over the words of max(length - 1, 0). */
  function Windows(words: seq<string>): nat
  {
    if |words| == 0 then 0
    else
      var word := words[|words| - 1];
      Windows(words[..|words| - 1]) + (if |word| < 2 then 0 else |word| - 1)
  }

  /** All keys built by the two nested loops, in the order they are built:
      one entry per (word, offset) pair. */
  function Scan(words: seq<string>): (r: seq<Bigram>)
    ensures |r| == Windows(words)
  {
    if |words| == 0 then [] else Scan(words[..|words| - 1]) + Extract(words[|words| - 1])
  }

  /** The dictionary `d` after inserting the keys of `occs` one by one. */
  function InsertAll(d: Dict, occs: seq<Bigram>): Dict
  {
    if |occs| == 0 then d else InsertAll(d, occs[..|occs| - 1]).Insert(occs[|occs| - 1])
  }

  /** The dictionary after inserting the keys of `occs` one by one into an
      empty one, as the pass does starting from `unique = {}`. */
  function Tally(occs: seq<Bigram>): Dict
  {
    InsertAll(Dict(map[], []), occs)
  }

  /** The index at which `x` first occurs in `s`. */
  function FirstIndex(s: seq<Bigram>, x: Bigram): (r: nat)
    requires x in s
    ensures r < |s| && s[r] == x
    ensures forall j :: 0 <= j < r ==> s[j] != x
  {
    var init := s[..|s| - 1];
    if x in init then FirstIndex(init, x) else |s| - 1
  }

  /** The sum of the counts of `keys` (a key without a count adds nothing). */
  function Total(counts: map<Bigram, nat>, keys: seq<Bigram>): nat
  {
    if |keys| == 0 then 0
    else
      var k := keys[|keys| - 1];
      Total(counts, keys[..|keys| - 1]) + (if k in counts then counts[k] else 0)
  }

  // ---------------------------------------------------------------------
  // The counting pass
  // ---------------------------------------------------------------------

  /** Lines 64-75 of main.py: the nested loops over words and offsets,
      inserting a new key with count 1 or incrementing an existing count.
      The result is the dictionary obtained by inserting every scanned key
      in scan order. */
  method CountBigrams(words: seq<string>) returns (unique: Dict)
    ensures unique.Valid()
    ensures unique == Tally(Scan(words))
  {
    var counts: map<Bigram, nat> := map[];
    var order: seq<Bigram> := [];
    var i := 0;
    assert words[..0] == [];
    while i < |words|
      invariant 0 <= i <= |words|
      invariant Dict(counts, order) == Tally(Scan(words[..i]))
    {
      var word := words[i];
      ghost var start := Dict(counts, order);
      var n := 0;
      assert Extract(word)[..n] == [];
      while n < |word| - 1
        invariant 0 <= n <= |Extract(word)|
        invariant Dict(counts, order) == InsertAll(start, Extract(word)[..n])
      {
        var key := Bigram(n + 1, word[n..n + 2]);
        InsertNextKey(start, word, n);
        if key !in counts {
          counts := counts[key := 1];
          order := order + [key];
        } else {
          counts := counts[key := counts[key] + 1];
        }
        n := n + 1;
      }
      assert Extract(word)[..n] == Extract(word);
      ScanNextWord(words, i);
      i := i + 1;
    }
    assert words[..i] == words;
    unique := Dict(counts, order);
    TallyValid(Scan(words));
  }

  /** One more offset of the inner loop inserts the key built there. */
  lemma InsertNextKey(d: Dict, word: string, n: nat)
    requires n < |word| - 1
    ensures InsertAll(d, Extract(word)[..n + 1])
         == InsertAll(d, Extract(word)[..n]).Insert(Bigram(n + 1, word[n..n + 2]))
  {
    var r := Extract(word);
    ExtractAt(word, n);
    assert r[..n + 1][..n] == r[..n];
  }

  /** One more word of the outer loop inserts that word's keys. */
  lemma ScanNextWord(words: seq<string>, i: nat)
    requires i < |words|
    ensures Tally(Scan(words[..i + 1])) == InsertAll(Tally(Scan(words[..i])), Extract(words[i]))
  {
    assert words[..i + 1][..i] == words[..i];
    InsertAllAppend(Dict(map[], []), Scan(words[..i]), Extract(words[i]));
  }

  /** Inserting `a` then `b` is inserting `a + b`. */
  lemma {:induction false} InsertAllAppend(d: Dict, a: seq<Bigram>, b: seq<Bigram>)
    ensures InsertAll(d, a + b) == InsertAll(InsertAll(d, a), b)
  {
    if |b| == 0 {
      assert a + b == a;
    } else {
      var init := b[..|b| - 1];
      InsertAllAppend(d, a, init);
      assert (a + b)[..|a + b| - 1] == a + init;
    }
  }

  /** Counting one more occurrence is one more insertion. */
  lemma TallySnoc(occs: seq<Bigram>, x: Bigram)
    ensures Tally(occs + [x]) == Tally(occs).Insert(x)
  {
    assert (occs + [x])[..|occs|] == occs;
  }

  // ---------------------------------------------------------------------
  // Properties of the counts
  // ---------------------------------------------------------------------

  /** The dictionary built by the pass lists every key exactly once. */
  lemma {:induction false} TallyValid(occs: seq<Bigram>)
    ensures Tally(occs).Valid()
  {
    if |occs| > 0 {
      TallyValid(occs[..|occs| - 1]);
      InsertValid(Tally(occs[..|occs| - 1]), occs[|occs| - 1]);
    }
  }

  /** A key is stored exactly when some (word, offset) pair produced it,
      and its count is the number of such pairs, so at least 1. */
  lemma {:induction false} TallyCounts(occs: seq<Bigram>)
    ensures forall k :: k in Tally(occs).counts <==> k in occs
    ensures forall k :: k in Tally(occs).counts ==> Tally(occs).counts[k] == multiset(occs)[k] >= 1
  {
    if |occs| > 0 {
      var init, x := occs[..|occs| - 1], occs[|occs| - 1];
      assert occs == init + [x];
      TallyCounts(init);
      assert multiset(occs) == multiset(init) + multiset{x};
    }
  }

  /** The dictionary is empty exactly when nothing was scanned. */
  lemma TallyEmpty(occs: seq<Bigram>)
    ensures |Tally(occs).counts| == 0 <==> occs == []
  {
    if occs != [] {
      TallyCounts(occs);
      assert occs[0] in Tally(occs).counts;
    }
  }

  /** Keys are iterated in the order of their first occurrence in the scan,
      and every scanned key is iterated. */
  lemma {:induction false} TallyOrder(occs: seq<Bigram>)
    ensures forall k :: k in Tally(occs).order <==> k in occs
    ensures forall i, j :: 0 <= i < j < |Tally(occs).order| ==>
              FirstIndex(occs, Tally(occs).order[i]) < FirstIndex(occs, Tally(occs).order[j])
  {
    if |occs| > 0 {
      var init, x := occs[..|occs| - 1], occs[|occs| - 1];
      assert occs == init + [x];
      var before := Tally(init).order;
      var after := Tally(occs).order;
      TallyOrder(init);
      assert after == if x in init then before else before + [x] by {
        TallyCounts(init);
      }
      forall i, j | 0 <= i < j < |after|
        ensures FirstIndex(occs, after[i]) < FirstIndex(occs, after[j])
      {
        FirstIndexSnoc(init, x, after[i]);
        FirstIndexSnoc(init, x, after[j]);
        if j < |before| {
          assert after[i] == before[i] && after[j] == before[j];
        }
      }
    }
  }

  /** Appending an element leaves earlier first indices alone; a new
      element first occurs at the end. */
  lemma FirstIndexSnoc(init: seq<Bigram>, x: Bigram, k: Bigram)
    requires k in init + [x]
    ensures k in init ==> FirstIndex(init + [x], k) == FirstIndex(init, k)
    ensures k !in init ==> k == x && FirstIndex(init + [x], k) == |init|
  {
    assert (init + [x])[..|init|] == init;
  }

  lemma {:induction false} TotalAgree(m1: map<Bigram, nat>, m2: map<Bigram, nat>, keys: seq<Bigram>)
    requires forall i :: 0 <= i < |keys| ==> keys[i] in m1 && keys[i] in m2 && m1[keys[i]] == m2[keys[i]]
    ensures Total(m1, keys) == Total(m2, keys)
  {
    if |keys| > 0 {
      TotalAgree(m1, m2, keys[..|keys| - 1]);
    }
  }

  lemma {:induction false} TotalBump(m: map<Bigram, nat>, keys: seq<Bigram>, x: Bigram)
    requires forall i :: 0 <= i < |keys| ==> keys[i] in m
    requires forall i, j :: 0 <= i < j < |keys| ==> keys[i] != keys[j]
    requires x in keys
    ensures Total(m[x := m[x] + 1], keys) == Total(m, keys) + 1
  {
    var init, y := keys[..|keys| - 1], keys[|keys| - 1];
    if y == x {
      TotalAgree(m[x := m[x] + 1], m, init);
    } else {
      TotalBump(m, init, x);
    }
  }

  /** The counts of the stored keys add up to the number of occurrences. */
  lemma {:induction false} TallyTotal(occs: seq<Bigram>)
    ensures Total(Tally(occs).counts, Tally(occs).order) == |occs|
  {
    if |occs| > 0 {
      var init, x := occs[..|occs| - 1], occs[|occs| - 1];
      var before := Tally(init);
      assert Tally(occs) == before.Insert(x);
      TallyTotal(init);
      if x in before.counts {
        assert Total(before.Insert(x).counts, before.order) == Total(before.counts, before.order) + 1 by {
          TallyValid(init);
          TotalBump(before.counts, before.order, x);
        }
      } else {
        var after := before.Insert(x);
        assert Total(after.counts, before.order) == Total(before.counts, before.order) by {
          TallyValid(init);
          TotalAgree(after.counts, before.counts, before.order);
        }
        assert (before.order + [x])[..|before.order|] == before.order;
      }
    }
  }

  /** The sum of all counts equals the sum over words of max(length - 1, 0). */
  lemma SumOfCounts(words: seq<string>)
    ensures Total(Tally(Scan(words)).counts, Tally(Scan(words)).order) == Windows(words)
  {
    TallyTotal(Scan(words));
  }

  // ---------------------------------------------------------------------
  // Properties of the extracted keys
  // ---------------------------------------------------------------------

  /** A key occurs in a word's extraction exactly when its integer field is
      a position 1 .. |word| - 1 and its text field is the two-character
      slice of the word starting there. */
  lemma ExtractMember(word: string, k: Bigram)
    ensures k in Extract(word) <==>
              1 <= k.bigram < |word| && k.position == word[k.bigram - 1..k.bigram + 1]
  {
    var r := Extract(word);
    if k in r {
      var n :| 0 <= n < |r| && r[n] == k;
      ExtractAt(word, n);
    }
    if 1 <= k.bigram < |word| && k.position == word[k.bigram - 1..k.bigram + 1] {
      ExtractAt(word, k.bigram - 1);
      assert r[k.bigram - 1] == k;
    }
  }

  /** A key is scanned exactly when one of the words extracts it. */
  lemma {:induction false} ScanMember(words: seq<string>, k: Bigram)
    ensures k in Scan(words) <==> exists i :: 0 <= i < |words| && k in Extract(words[i])
  {
    if |words| > 0 {
      var init := words[..|words| - 1];
      ScanMember(init, k);
      assert forall i :: 0 <= i < |init| ==> init[i] == words[i];
      if k in Extract(words[|words| - 1]) {
        assert k in Scan(words);
      }
    }
  }

  /** Because of the swapped constructor arguments, every stored key has
      its `bigram` field equal to an offset + 1 within some word and its
      `position` field equal to the two-character slice at that offset. */
  lemma StoredKeyShape(words: seq<string>)
    ensures forall k :: k in Tally(Scan(words)).counts ==>
              && k.bigram >= 1
              && |k.position| == 2
              && exists i :: 0 <= i < |words| && 1 <= k.bigram < |words[i]|
                                             && k.position == words[i][k.bigram - 1..k.bigram + 1]
  {
    TallyCounts(Scan(words));
    forall k | k in Tally(Scan(words)).counts
      ensures exists i :: 0 <= i < |words| && 1 <= k.bigram < |words[i]|
                                           && k.position == words[i][k.bigram - 1..k.bigram + 1]
    {
      ScanMember(words, k);
      var i :| 0 <= i < |words| && k in Extract(words[i]);
      ExtractMember(words[i], k);
    }
  }

  /** Nothing is counted exactly when every word is shorter than two characters. */
  lemma {:induction false} NothingScanned(words: seq<string>)
    ensures Scan(words) == [] <==> forall i :: 0 <= i < |words| ==> |words[i]| < 2
  {
    if |words| > 0 {
      var init := words[..|words| - 1];
      NothingScanned(init);
      assert forall i :: 0 <= i < |init| ==> init[i] == words[i];
    }
  }

  /** Within one word every key has a different position, so scanning a
      single word of length L stores max(L - 1, 0) keys, each counted once,
      in offset order. */
  lemma SingleWord(word: string)
    ensures Tally(Scan([word])).order == Extract(word)
    ensures |Tally(Scan([word])).counts| == if |word| < 2 then 0 else |word| - 1
    ensures forall k :: k in Tally(Scan([word])).counts ==> Tally(Scan([word])).counts[k] == 1
  {
    assert Scan([word]) == Extract(word) by {
      assert [word][..0] == [];
    }
    ExtractDistinct(word);
    TallyOfDistinct(Extract(word));
  }

  /** The keys of one word have pairwise different positions. */
  lemma ExtractDistinct(word: string)
    ensures forall i, j :: 0 <= i < j < |Extract(word)| ==> Extract(word)[i].bigram != Extract(word)[j].bigram
  {
    forall i, j | 0 <= i < j < |Extract(word)|
      ensures Extract(word)[i].bigram != Extract(word)[j].bigram
    {
      ExtractAt(word, i);
      ExtractAt(word, j);
    }
  }

  /** Counting pairwise different keys stores each once, with count 1, in
      the order given. */
  lemma TallyOfDistinct(s: seq<Bigram>)
    requires forall i, j :: 0 <= i < j < |s| ==> s[i] != s[j]
    ensures Tally(s).order == s
    ensures |Tally(s).counts| == |s|
    ensures forall k :: k in Tally(s).counts ==> Tally(s).counts[k] == 1
  {
    var d := Tally(s);
    assert d.order == s by {
      TallyOrderOfDistinct(s);
    }
    assert forall k :: k in d.counts ==> d.counts[k] == 1 by {
      DistinctCountsOne(s);
      TallyCounts(s);
    }
    assert |d.counts| == |d.order| by {
      TallyValid(s);
      DictSize(d);
    }
  }

  lemma {:induction false} DistinctCountsOne(s: seq<Bigram>)
    requires forall i, j :: 0 <= i < j < |s| ==> s[i] != s[j]
    ensures forall k :: k in s ==> multiset(s)[k] == 1
  {
    if |s| > 0 {
      var init, x := s[..|s| - 1], s[|s| - 1];
      assert s == init + [x];
      DistinctCountsOne(init);
      assert x !in init;
    }
  }

  lemma {:induction false} TallyOrderOfDistinct(s: seq<Bigram>)
    requires forall i, j :: 0 <= i < j < |s| ==> s[i] != s[j]
    ensures Tally(s).order == s
  {
    if |s| > 0 {
      var init := s[..|s| - 1];
      TallyOrderOfDistinct(init);
      TallyCounts(init);
      assert s == init + [s[|s| - 1]];
    }
  }

  /** A well-formed dict has as many entries as its iteration order. */
  lemma DictSize(d: Dict)
    requires d.Valid()
    ensures |d.counts| == |d.order|
  {
    assert d.counts.Keys == set k | k in d.order;
    DistinctCard(d.order);
  }

  lemma {:induction false} DistinctCard(s: seq<Bigram>)
    requires forall i, j :: 0 <= i < j < |s| ==> s[i] != s[j]
    ensures |set k | k in s| == |s|
  {
    if |s| > 0 {
      var init, x := s[..|s| - 1], s[|s| - 1];
      DistinctCard(init);
      assert (set k | k in s) == (set k | k in init) + {x};
    }
  }
}
