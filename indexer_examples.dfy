/** Worked examples of the normaliser and the phrase builder on inputs of the
    StringIndexer unit tests. */
module IndexerExamples {
  import opened StringIndexer

  lemma SingleWord(w: string)
    requires IsToken(w, IsLetterOrDigit)
    ensures Words(w) == [w]
  {
    TokensAfterToken(w, [], IsLetterOrDigit);
    assert w + [] == w;
  }

  /** A trailing full stop is dropped: "sea." normalises to "sea". */
  lemma SeaExample()
    ensures StripAndLower("sea.") == "sea"
  {
    assert LowerText("sea.") == "sea.";
    assert "sea" + "." == "sea.";
    TokensSplit("sea", ".", IsLetterOrDigit);
    SingleWord("sea");
    assert Words(".") == [];
  }

  /** The hand-written index term of the Arabic-text test is already
      normalised, so the query "\u00e1rabic" looks up exactly that term. */
  lemma AccentedTermExample()
    ensures StripAndLower("\U{E1}rabic") == "\U{E1}rabic"
  {
    assert LowerText("\U{E1}rabic") == "\U{E1}rabic";
    SingleWord("\U{E1}rabic");
    assert Join(["\U{E1}rabic"]) == "\U{E1}rabic";
  }

  // The mixed sample "<1921___.bg three c\u00e4ts!Left__h\u00f4me(early)-In.Two.CARS"
  // laid out as its separator runs and its words.
  const SampleSeparators: seq<string> := ["<", "___.", " ", " ", "!", "__", "(", ")-", ".", "."]
  const SampleWords: seq<string> := ["1921", "bg", "three", "c\U{E4}ts", "Left", "h\U{F4}me", "early", "In", "Two", "CARS"]

  lemma SampleSeparatorsDropped()
    ensures forall i :: 0 <= i < |SampleSeparators| ==> AllDropped(SampleSeparators[i], IsLetterOrDigit)
    ensures forall i :: 0 < i < |SampleSeparators| ==> SampleSeparators[i] != []
  {
    forall i | 0 <= i < |SampleSeparators| ensures AllDropped(SampleSeparators[i], IsLetterOrDigit) {
    }
  }

  lemma SampleWordsAreWords()
    ensures forall i :: 0 <= i < |SampleWords| ==> IsToken(SampleWords[i], IsLetterOrDigit)
  {
    forall i | 0 <= i < |SampleWords| ensures IsToken(SampleWords[i], IsLetterOrDigit) {
    }
  }

  lemma SampleWordsLowered()
    ensures LowerAll(SampleWords) == ["1921", "bg", "three", "c\U{E4}ts", "left", "h\U{F4}me", "early", "in", "two", "cars"]
  {
    assert LowerText("1921") == "1921";
    assert LowerText("bg") == "bg";
    assert LowerText("three") == "three";
    assert LowerText("c\U{E4}ts") == "c\U{E4}ts";
    assert LowerText("Left") == "left";
    assert LowerText("h\U{F4}me") == "h\U{F4}me";
    assert LowerText("early") == "early";
    assert LowerText("In") == "in";
    assert LowerText("Two") == "two";
    assert LowerText("CARS") == "cars";
  }

  /** The mixed sample normalises to "1921 bg three c\u00e4ts left h\u00f4me early
      in two cars": '<', '_', '.', '!', '(', ')' and '-' separate, digits and
      accented letters stay, upper case is lowered, and the words are joined by
      single spaces with none at either end. */
  lemma ComplexSampleExample()
    ensures StripAndLower(Weave(SampleSeparators, SampleWords)) == Join(["1921", "bg", "three", "c\U{E4}ts", "left", "h\U{F4}me", "early", "in", "two", "cars"])
  {
    SampleSeparatorsDropped();
    SampleWordsAreWords();
    StripAndLowerOfWeave(SampleSeparators, SampleWords, "");
    assert Weave(SampleSeparators, SampleWords) + "" == Weave(SampleSeparators, SampleWords);
    SampleWordsLowered();
  }

  lemma HelloFields()
    ensures Fields("hello indexed words") == ["hello", "indexed", "words"]
  {
    var ws := ["hello", "indexed", "words"];
    assert Join(ws) == "hello indexed words";
    assert IsToken("hello", IsNonSpace);
    assert IsToken("indexed", IsNonSpace);
    assert IsToken("words", IsNonSpace);
    TokensOfJoin(ws, IsNonSpace);
  }

  /** The phrases of a three-word list at depths 1, 2 and any depth from 3 on. */
  lemma ThreeWordWindows(a: string, b: string, c: string, d: nat)
    ensures d == 1 ==> Windows([a, b, c], d) == [a, b, c]
    ensures d == 2 ==> Windows([a, b, c], d) == [a, Join([a, b]), b, Join([b, c]), c]
    ensures d >= 3 ==> Windows([a, b, c], d) == [a, Join([a, b]), Join([a, b, c]), b, Join([b, c]), c]
  {
    var ws := [a, b, c];
    assert ws[..1] == [a] && ws[..2] == [a, b] && ws[..3] == ws;
    assert ws[1..] == [b, c] && ws[1..][..1] == [b] && ws[1..][..2] == [b, c];
    assert ws[1..][1..] == [c] && ws[1..][1..][..1] == [c] && ws[1..][1..][1..] == [];
    assert Windows([c], d) == Prefixes([c], d) + Windows([], d);
  }

  // _build_substrings on a text whose white-space separated words are
  // "hello", "indexed", "words", as for the text "hello indexed words".

  /** Depth 1 gives the single words. */
  lemma DepthOneExample(text: string)
    requires Fields(text) == ["hello", "indexed", "words"]
    ensures BuildSubstrings(text, 1) == {"hello", "indexed", "words"}
  {
    ThreeWordWindows("hello", "indexed", "words", 1);
  }

  /** Depth 2 adds the adjacent pairs. */
  lemma DepthTwoExample(text: string)
    requires Fields(text) == ["hello", "indexed", "words"]
    ensures BuildSubstrings(text, 2) == {"hello", "indexed", "words", "hello indexed", "indexed words"}
  {
    ThreeWordWindows("hello", "indexed", "words", 2);
    assert Join(["hello", "indexed"]) == "hello indexed";
    assert Join(["indexed", "words"]) == "indexed words";
  }

  /** Depth 5 is clamped: all six phrases and nothing more. */
  lemma DepthFiveExample(text: string)
    requires Fields(text) == ["hello", "indexed", "words"]
    ensures BuildSubstrings(text, 5) ==
      {"hello", "indexed", "words", "hello indexed", "indexed words", "hello indexed words"}
  {
    ThreeWordWindows("hello", "indexed", "words", 5);
    assert Join(["hello", "indexed"]) == "hello indexed";
    assert Join(["indexed", "words"]) == "indexed words";
    assert Join(["hello", "indexed", "words"]) == "hello indexed words";
  }

  /** The phrases of a five-word list at depth 3. */
  lemma FiveWordWindows(a: string, b: string, c: string, d: string, e: string)
    ensures Windows([a, b, c, d, e], 3) ==
      [a, Join([a, b]), Join([a, b, c]), b, Join([b, c]), Join([b, c, d]),
       c, Join([c, d]), Join([c, d, e]), d, Join([d, e]), e]
  {
    var tail4 := [c, Join([c, d]), Join([c, d, e]), d, Join([d, e]), e];
    assert Windows([c, d, e], 3) == tail4 by {
      ThreeWordWindows(c, d, e, 3);
    }
    var tail3 := [b, Join([b, c]), Join([b, c, d])] + tail4;
    assert Windows([b, c, d, e], 3) == tail3 by {
      var ws := [b, c, d, e];
      assert ws[1..] == [c, d, e];
      assert ws[..1] == [b] && ws[..2] == [b, c] && ws[..3] == [b, c, d];
    }
    assert Windows([a, b, c, d, e], 3) == [a, Join([a, b]), Join([a, b, c])] + tail3 by {
      var ws := [a, b, c, d, e];
      assert ws[1..] == [b, c, d, e];
      assert ws[..1] == [a] && ws[..2] == [a, b] && ws[..3] == [a, b, c];
    }
  }

  /** Depth 3 on five words: every run of one, two or three consecutive words. */
  lemma DepthThreeExample(text: string)
    requires Fields(text) == ["hello", "indexed", "words", "of", "yore"]
    ensures BuildSubstrings(text, 3) == {"hello", "indexed", "words", "of", "yore", "hello indexed", "indexed words", "words of", "of yore", "hello indexed words", "indexed words of", "words of yore"}
  {
    FiveWordWindows("hello", "indexed", "words", "of", "yore");
    assert Join(["hello", "indexed"]) == "hello indexed";
    assert Join(["indexed", "words"]) == "indexed words";
    assert Join(["words", "of"]) == "words of";
    assert Join(["of", "yore"]) == "of yore";
    assert Join(["hello", "indexed", "words"]) == "hello indexed words";
    assert Join(["indexed", "words", "of"]) == "indexed words of";
    assert Join(["words", "of", "yore"]) == "words of yore";
  }

  lemma FiveWordFields()
    ensures Fields("hello indexed words of yore") == ["hello", "indexed", "words", "of", "yore"]
  {
    var ws := ["hello", "indexed", "words", "of", "yore"];
    assert Join(ws) == "hello indexed words of yore";
    forall i | 0 <= i < |ws| ensures IsToken(ws[i], IsNonSpace) {
    }
    TokensOfJoin(ws, IsNonSpace);
  }
}
