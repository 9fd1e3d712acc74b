/** The `export` function of main.py and the call that ends
    `generate_bigram_analysis`.  The CSV file itself is not modelled: the
    output is the sequence of rows that would be written, or the decision to
    write nothing at all. */
module Report {
  import opened BigramKeys
  import opened Analysis

  /** One CSV cell: `csv.writer` turns integers into their decimal text. */
  datatype Cell = Text(text: string) | Number(value: int)

  type Row = seq<Cell>

  /** What `export` does: return early without creating a file, or write
      a file with these rows. */
  datatype Output = NothingToExport | Written(rows: seq<Row>)

  /** The header row written at lines 53-54 of main.py. */
  const Header: Row := [Text("bigram"), Text("position"), Text("frequency")]

  /** The row written for one key at line 57: `[key.bigram, key.position,
      results[key]]`.  Because of the swapped constructor arguments the
      first cell is the position and the second the two-character text. */
  function DataRow(key: Bigram, count: nat): Row
  {
    [Number(key.bigram), Text(key.position), Number(count)]
  }

  /** Lines 41-57 of main.py.  An empty dictionary writes nothing.
      Otherwise the header comes first, then one row per key in the
      dictionary's iteration order, so every key gets exactly one row. */
  method Export(results: Dict) returns (out: Output)
    requires results.Valid()
    ensures out == NothingToExport <==> |results.counts| == 0
    ensures out.Written? ==> |out.rows| == |results.order| + 1 && out.rows[0] == Header
    ensures out.Written? ==> forall i :: 0 <= i < |results.order| ==>
              out.rows[i + 1] == DataRow(results.order[i], results.counts[results.order[i]])
    ensures out.Written? ==> forall k :: k in results.counts ==>
              exists i :: 1 <= i < |out.rows| && out.rows[i] == DataRow(k, results.counts[k])
    ensures out.Written? ==> forall i, j :: 1 <= i < j < |out.rows| ==> out.rows[i] != out.rows[j]
  {
    if |results.counts| == 0 {
      return NothingToExport;
    }
    var rows: seq<Row> := [Header];
    for i := 0 to |results.order|
      invariant |rows| == i + 1 && rows[0] == Header
      invariant forall j :: 0 <= j < i ==>
                  rows[j + 1] == DataRow(results.order[j], results.counts[results.order[j]])
    {
      var key := results.order[i];
      rows := rows + [DataRow(key, results.counts[key])];
    }
    out := Written(rows);
    forall k | k in results.counts
      ensures exists i :: 1 <= i < |rows| && rows[i] == DataRow(k, results.counts[k])
    {
      var j :| 0 <= j < |results.order| && results.order[j] == k;
      assert rows[j + 1] == DataRow(k, results.counts[k]);
    }
    forall i, j | 1 <= i < j < |rows|
      ensures rows[i] != rows[j]
    {
      var a, b := results.order[i - 1], results.order[j - 1];
      assert a != b;
    }
  }

  /** `generate_bigram_analysis` (lines 60-77 of main.py) over a given word
      list: count, then export.  Nothing is written exactly when no word has
      two characters; otherwise the rows list, in order of first occurrence,
      every key built by the scan together with the number of (word, offset)
      pairs that built it. */
  method GenerateBigramAnalysis(words: seq<string>) returns (out: Output)
    ensures out == NothingToExport <==> forall i :: 0 <= i < |words| ==> |words[i]| < 2
    ensures out.Written? ==>
              var keys := Tally(Scan(words)).order;
              && |out.rows| == |keys| + 1
              && out.rows[0] == Header
              && forall i :: 0 <= i < |keys| ==>
                   out.rows[i + 1] == DataRow(keys[i], multiset(Scan(words))[keys[i]])
  {
    var unique := CountBigrams(words);
    out := Export(unique);
    assert |unique.counts| == 0 <==> forall i :: 0 <= i < |words| ==> |words[i]| < 2 by {
      NothingScanned(words);
      TallyEmpty(Scan(words));
    }
    forall k | k in unique.counts
      ensures unique.counts[k] == multiset(Scan(words))[k]
    {
      TallyCounts(Scan(words));
    }
  }

  /** The keys of a three-character word. */
  lemma ThreeCharacterKeys(word: string)
    requires |word| == 3
    ensures Extract(word) == [Bigram(1, word[0..2]), Bigram(2, word[1..3])]
  {
    ExtractAt(word, 0);
    ExtractAt(word, 1);
  }

  /** The keys of the word "cat". */
  lemma CatKeys()
    ensures Extract("cat") == [Bigram(1, "ca"), Bigram(2, "at")]
  {
    ThreeCharacterKeys("cat");
    assert "cat"[0..2] == "ca" && "cat"[1..3] == "at";
  }

  /** The word list ["cat"]: keys (1, "ca") and (2, "at"), each counted
      once, exported in that order. */
  lemma CatScenario()
    ensures Scan(["cat"]) == [Bigram(1, "ca"), Bigram(2, "at")]
    ensures Tally(Scan(["cat"])) ==
              Dict(map[Bigram(1, "ca") := 1, Bigram(2, "at") := 1], [Bigram(1, "ca"), Bigram(2, "at")])
  {
    assert Scan(["cat"]) == [Bigram(1, "ca"), Bigram(2, "at")] by {
      CatKeys();
      assert ["cat"][..0] == [];
    }
    CatTally();
  }

  /** Counting the keys of "cat" one after the other. */
  lemma CatTally()
    ensures Tally([Bigram(1, "ca"), Bigram(2, "at")]) ==
              Dict(map[Bigram(1, "ca") := 1, Bigram(2, "at") := 1], [Bigram(1, "ca"), Bigram(2, "at")])
  {
    var ca, at := Bigram(1, "ca"), Bigram(2, "at");
    assert Tally([ca]) == Dict(map[ca := 1], [ca]) by {
      TallySnoc([], ca);
      assert [] + [ca] == [ca];
    }
    assert [ca] + [at] == [ca, at];
    TallySnoc([ca], at);
  }

  /** The word list ["cat", "bat"]: the key (2, "at") is counted twice,
      (1, "ca") and (1, "ba") once each. */
  lemma CatBatScenario()
    ensures Scan(["cat", "bat"]) == [Bigram(1, "ca"), Bigram(2, "at"), Bigram(1, "ba"), Bigram(2, "at")]
    ensures Tally(Scan(["cat", "bat"])) ==
              Dict(map[Bigram(1, "ca") := 1, Bigram(2, "at") := 2, Bigram(1, "ba") := 1],
                   [Bigram(1, "ca"), Bigram(2, "at"), Bigram(1, "ba")])
  {
    CatBatScan();
    CatBatTally();
  }

  /** The keys scanned from ["cat", "bat"]: those of "cat", then those of "bat". */
  lemma CatBatScan()
    ensures Scan(["cat", "bat"]) == [Bigram(1, "ca"), Bigram(2, "at"), Bigram(1, "ba"), Bigram(2, "at")]
  {
    assert ["cat", "bat"][..1] == ["cat"];
    CatScenario();
    ThreeCharacterKeys("bat");
    assert "bat"[0..2] == "ba" && "bat"[1..3] == "at";
  }

  /** Counting the keys of "cat" and then those of "bat". */
  lemma CatBatTally()
    ensures Tally([Bigram(1, "ca"), Bigram(2, "at"), Bigram(1, "ba"), Bigram(2, "at")]) ==
              Dict(map[Bigram(1, "ca") := 1, Bigram(2, "at") := 2, Bigram(1, "ba") := 1],
                   [Bigram(1, "ca"), Bigram(2, "at"), Bigram(1, "ba")])
  {
    var ca, at, ba := Bigram(1, "ca"), Bigram(2, "at"), Bigram(1, "ba");
    var d3 := Dict(map[ca := 1, at := 1, ba := 1], [ca, at, ba]);
    assert Tally([ca, at, ba]) == d3 by {
      CatTally();
      assert ba != ca && ba != at by {
        assert "ba"[0] != "ca"[0];
      }
      assert [ca, at] + [ba] == [ca, at, ba];
      TallySnoc([ca, at], ba);
    }
    assert [ca, at, ba] + [at] == [ca, at, ba, at];
    TallySnoc([ca, at, ba], at);
    assert at != ba && at != ca;
  }

  /** The column the header calls "bigram" holds the position, a number of
      at least 1, and the column it calls "position" holds the
      two-character text: the swapped constructor arguments reach the
      report. */
  lemma HeaderColumnsSwapped(words: seq<string>)
    ensures Header[0] == Text("bigram") && Header[1] == Text("position")
    ensures forall k :: k in Tally(Scan(words)).counts ==>
              var row := DataRow(k, Tally(Scan(words)).counts[k]);
              row[0].Number? && row[0].value >= 1 && row[1].Text? && |row[1].text| == 2
  {
    StoredKeyShape(words);
  }
}
