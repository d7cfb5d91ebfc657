/** StringIndexer: the text normaliser (strip_and_lower), the phrase builder
    (_build_substrings) and the index-entry builder
    (build_indexes_from_timstamped_dto). All three are pure string functions. */
module StringIndexer {
  import opened Dto

  // ---------------------------------------------------------------------------
  // Character classes. Unicode letter classification is approximated by code
  // point ranges: ASCII letters and digits, the Latin-1 letters, and every code
  // point from U+0100 on except the general punctuation, symbol and arrow
  // blocks U+2000-U+2BFF and the CJK punctuation block U+3000-U+303F.
  // ---------------------------------------------------------------------------

  predicate IsAsciiLetter(c: char)
  {
    'a' <= c <= 'z' || 'A' <= c <= 'Z'
  }

  predicate IsDigit(c: char)
  {
    '0' <= c <= '9'
  }

  predicate IsLatin1Letter(c: char)
  {
    || ('\U{C0}' <= c <= '\U{FF}' && c != '\U{D7}' && c != '\U{F7}')
    || c == '\U{AA}' || c == '\U{B5}' || c == '\U{BA}'
  }

  predicate IsBeyondLatin1Letter(c: char)
  {
    && '\U{100}' <= c
    && !('\U{2000}' <= c <= '\U{2BFF}')
    && !('\U{3000}' <= c <= '\U{303F}')
  }

  /** A word character: everything else (punctuation, brackets, dots, hyphens,
      underscores, white space) separates words. */
  predicate IsLetterOrDigit(c: char)
  {
    IsAsciiLetter(c) || IsDigit(c) || IsLatin1Letter(c) || IsBeyondLatin1Letter(c)
  }

  /** The upper-case letters that Lower changes: ASCII A-Z and Latin-1 U+00C0-U+00DE
      except the multiplication sign U+00D7. */
  predicate IsUpper(c: char)
  {
    'A' <= c <= 'Z' || ('\U{C0}' <= c <= '\U{DE}' && c != '\U{D7}')
  }

  /** Code-point-wise lower-casing: an upper-case letter becomes its lower-case
      partner, every other character is left alone, and whether a character is a
      word character does not change. */
  function Lower(c: char): (d: char)
    ensures !IsUpper(d)
    ensures !IsUpper(c) ==> d == c
    ensures IsLetterOrDigit(d) <==> IsLetterOrDigit(c)
  {
    if IsUpper(c) then (c as int + 32) as char else c
  }

  /** White space as Python's str.split() without arguments sees it. */
  predicate IsSpace(c: char)
  {
    c == ' ' || c == '\t' || c == '\n' || c == '\r' || c == '\U{0B}' || c == '\U{0C}'
  }

  predicate IsNonSpace(c: char)
  {
    !IsSpace(c)
  }

  // ---------------------------------------------------------------------------
  // Tokenising: maximal runs of kept characters.
  // ---------------------------------------------------------------------------

  /** A token is a non-empty run of kept characters. */
  predicate IsToken(t: string, keep: char -> bool)
  {
    |t| > 0 && forall i :: 0 <= i < |t| ==> keep(t[i])
  }

  /** Length of the run of kept characters at the start of `s`. */
  function RunLength(s: string, keep: char -> bool): (n: nat)
    ensures n <= |s|
    ensures forall i :: 0 <= i < n ==> keep(s[i])
    ensures n == |s| || !keep(s[n])
  {
    if s == [] || !keep(s[0]) then 0 else 1 + RunLength(s[1..], keep)
  }

  /** The maximal runs of kept characters of `s`, in order. */
  function Tokens(s: string, keep: char -> bool): (ts: seq<string>)
    ensures forall i :: 0 <= i < |ts| ==> IsToken(ts[i], keep)
    decreases |s|
  {
    if s == [] then []
    else if !keep(s[0]) then Tokens(s[1..], keep)
    else
      var n := RunLength(s, keep);
      [s[..n]] + Tokens(s[n..], keep)
  }

  /** The words of a text: maximal runs of letters and digits. */
  function Words(s: string): seq<string>
  {
    Tokens(s, IsLetterOrDigit)
  }

  /** Python's str.split(): maximal runs of non-white-space characters. */
  function Fields(s: string): seq<string>
  {
    Tokens(s, IsNonSpace)
  }

  /** Words joined by single spaces (Python's ' '.join). */
  function Join(ws: seq<string>): string
  {
    if ws == [] then []
    else if |ws| == 1 then ws[0]
    else ws[0] + " " + Join(ws[1..])
  }

  function LowerText(s: string): (r: string)
    ensures |r| == |s|
    ensures forall i :: 0 <= i < |s| ==> r[i] == Lower(s[i])
  {
    seq(|s|, i requires 0 <= i < |s| => Lower(s[i]))
  }

  /** A character of normalised text: a space or a lower-case word character. */
  predicate IsNormalChar(c: char)
  {
    c == ' ' || (IsLetterOrDigit(c) && !IsUpper(c))
  }

  /** strip_and_lower: lower-cases the text and keeps its words, joined by
      single spaces. Every non-word character acts as a separator, and runs of
      separators (also at either end) collapse. */
  function StripAndLower(text: string): string
  {
    Join(Words(LowerText(text)))
  }

  /** The result of StripAndLower holds exactly the lower-cased words of the
      text, splitting it on white space gives those words back, and it holds
      nothing but spaces and lower-case word characters. */
  lemma StripAndLowerSpec(text: string)
    ensures var r := StripAndLower(text);
      && Words(r) == Words(LowerText(text))
      && Fields(r) == Words(LowerText(text))
      && Join(Fields(r)) == r
      && forall i :: 0 <= i < |r| ==> IsNormalChar(r[i])
  {
    var ws := Words(LowerText(text));
    WordsAreFields(ws);
    TokensOfJoin(ws, IsLetterOrDigit);
    TokensOfJoin(ws, IsNonSpace);
    TokensChars(LowerText(text), IsLetterOrDigit, IsNormalChar);
    assert ws == Tokens(LowerText(text), IsLetterOrDigit);
    assert forall i, j :: 0 <= i < |ws| && 0 <= j < |ws[i]| ==> IsNormalChar(ws[i][j]);
    JoinChars(ws, IsNormalChar);
  }

  // ---------------------------------------------------------------------------
  // Lemmas about tokens and joins.
  // ---------------------------------------------------------------------------

  lemma {:induction false} RunLengthOfToken(t: string, rest: string, keep: char -> bool)
    requires IsToken(t, keep) || t == []
    requires rest == [] || !keep(rest[0])
    ensures RunLength(t + rest, keep) == |t|
    decreases |t|
  {
    if t != [] {
      assert (t + rest)[1..] == t[1..] + rest;
      RunLengthOfToken(t[1..], rest, keep);
    } else {
      assert t + rest == rest;
    }
  }

  /** A token followed by a separator (or the end) is the first token. */
  lemma TokensAfterToken(t: string, rest: string, keep: char -> bool)
    requires IsToken(t, keep)
    requires rest == [] || !keep(rest[0])
    ensures Tokens(t + rest, keep) == [t] + Tokens(rest, keep)
  {
    RunLengthOfToken(t, rest, keep);
    var s := t + rest;
    assert s[0] == t[0];
    assert s[..|t|] == t && s[|t|..] == rest;
  }

  /** Tokenising words joined by a separator gives the words back. */
  lemma {:induction false} TokensOfJoin(ws: seq<string>, keep: char -> bool)
    requires forall i :: 0 <= i < |ws| ==> IsToken(ws[i], keep)
    requires !keep(' ')
    ensures Tokens(Join(ws), keep) == ws
  {
    if ws == [] {
    } else if |ws| == 1 {
      TokensAfterToken(ws[0], [], keep);
      assert ws[0] + [] == ws[0];
    } else {
      var rest := Join(ws[1..]);
      TokensOfJoin(ws[1..], keep);
      assert ws[0] + " " + rest == ws[0] + (" " + rest);
      TokensAfterToken(ws[0], " " + rest, keep);
      assert (" " + rest)[1..] == rest;
    }
  }

  /** Tokenising splits at a separator: text cut where a separator meets
      either side of the cut tokenises piece by piece. */
  lemma {:induction false} TokensSplit(a: string, b: string, keep: char -> bool)
    requires a == [] || b == [] || !keep(a[|a| - 1]) || !keep(b[0])
    ensures Tokens(a + b, keep) == Tokens(a, keep) + Tokens(b, keep)
    decreases |a|, 1
  {
    if a == [] {
      assert a + b == b;
    } else if !keep(a[0]) {
      assert (a + b)[1..] == a[1..] + b;
      TokensSplit(a[1..], b, keep);
    } else if RunLength(a, keep) < |a| {
      TokensSplitAfterRun(a, b, keep);
    } else {
      TokensSplitWhole(a, b, keep);
    }
  }

  /** TokensSplit when `a` starts with a token that ends inside `a`. */
  lemma {:induction false} TokensSplitAfterRun(a: string, b: string, keep: char -> bool)
    requires a != [] && keep(a[0]) && RunLength(a, keep) < |a|
    requires b == [] || !keep(a[|a| - 1]) || !keep(b[0])
    ensures Tokens(a + b, keep) == Tokens(a, keep) + Tokens(b, keep)
    decreases |a|, 0
  {
    var n := RunLength(a, keep);
    var t, rest := a[..n], a[n..];
    var x, y := Tokens(rest, keep), Tokens(b, keep);
    assert Tokens(a, keep) == [t] + x && Tokens(a + b, keep) == [t] + Tokens(rest + b, keep) by {
      FirstRunThen(a, b, keep);
    }
    assert Tokens(rest + b, keep) == x + y by {
      assert 0 < n && rest != [] && rest[|rest| - 1] == a[|a| - 1];
      TokensSplit(rest, b, keep);
    }
    assert [t] + (x + y) == ([t] + x) + y;
  }

  /** A text that opens with a run of kept characters followed by a dropped
      one splits into that run and the tokens of the rest, also when more
      text follows. */
  lemma FirstRunThen(a: string, b: string, keep: char -> bool)
    requires a != [] && keep(a[0]) && RunLength(a, keep) < |a|
    ensures var n := RunLength(a, keep);
      && Tokens(a, keep) == [a[..n]] + Tokens(a[n..], keep)
      && Tokens(a + b, keep) == [a[..n]] + Tokens(a[n..] + b, keep)
  {
    var n := RunLength(a, keep);
    var t, rest := a[..n], a[n..];
    assert IsToken(t, keep) && rest != [] && !keep(rest[0]) && a == t + rest;
    TokensAfterToken(t, rest, keep);
    assert a + b == t + (rest + b);
    TokensAfterToken(t, rest + b, keep);
  }

  /** TokensSplit when all of `a` is one token. */
  lemma TokensSplitWhole(a: string, b: string, keep: char -> bool)
    requires a != [] && RunLength(a, keep) == |a|
    requires b == [] || !keep(b[0])
    ensures Tokens(a + b, keep) == Tokens(a, keep) + Tokens(b, keep)
  {
    assert IsToken(a, keep);
    assert Tokens(a, keep) == [a] by {
      assert a + [] == a;
      TokensAfterToken(a, [], keep);
    }
    TokensAfterToken(a, b, keep);
  }

  /** Words are also white-space fields. */
  lemma WordsAreFields(ws: seq<string>)
    requires forall i :: 0 <= i < |ws| ==> IsToken(ws[i], IsLetterOrDigit)
    ensures forall i :: 0 <= i < |ws| ==> IsToken(ws[i], IsNonSpace)
  {
    forall i, j | 0 <= i < |ws| && 0 <= j < |ws[i]| ensures IsNonSpace(ws[i][j]) {
      assert IsLetterOrDigit(ws[i][j]);
    }
  }

  /** A property of every kept character of the text holds of every character
      of its tokens. */
  lemma {:induction false} TokensChars(s: string, keep: char -> bool, P: char -> bool)
    requires forall k :: 0 <= k < |s| && keep(s[k]) ==> P(s[k])
    ensures var ts := Tokens(s, keep); forall i, j :: 0 <= i < |ts| && 0 <= j < |ts[i]| ==> P(ts[i][j])
    decreases |s|
  {
    if s != [] {
      if !keep(s[0]) {
        assert forall k :: 0 <= k < |s| - 1 ==> s[1..][k] == s[k + 1];
        TokensChars(s[1..], keep, P);
        assert Tokens(s, keep) == Tokens(s[1..], keep);
      } else {
        var n := RunLength(s, keep);
        assert forall k :: 0 <= k < |s| - n ==> s[n..][k] == s[k + n];
        TokensChars(s[n..], keep, P);
        var ts := Tokens(s, keep);
        assert ts == [s[..n]] + Tokens(s[n..], keep);
        forall i, j | 0 <= i < |ts| && 0 <= j < |ts[i]| ensures P(ts[i][j]) {
          if i == 0 {
            assert ts[0][j] == s[j];
          } else {
            assert ts[i] == Tokens(s[n..], keep)[i - 1];
          }
        }
      }
    }
  }

  /** A property of the space and of every character of the words holds of
      every character of their join. */
  lemma {:induction false} JoinChars(ws: seq<string>, P: char -> bool)
    requires P(' ')
    requires forall i, j :: 0 <= i < |ws| && 0 <= j < |ws[i]| ==> P(ws[i][j])
    ensures forall k :: 0 <= k < |Join(ws)| ==> P(Join(ws)[k])
  {
    if |ws| > 1 {
      var rest := ws[1..];
      forall i, j | 0 <= i < |rest| && 0 <= j < |rest[i]| ensures P(rest[i][j]) {
        assert rest[i] == ws[i + 1];
      }
      JoinChars(rest, P);
      var r := Join(ws);
      forall k | 0 <= k < |r| ensures P(r[k]) {
        if k < |ws[0]| {
          assert r[k] == ws[0][k];
        } else if k > |ws[0]| {
          assert r[k] == Join(rest)[k - |ws[0]| - 1];
        }
      }
    } else if |ws| == 1 {
      forall k | 0 <= k < |ws[0]| ensures P(ws[0][k]) {
      }
    }
  }

  function LowerAll(ws: seq<string>): (r: seq<string>)
    ensures |r| == |ws|
    ensures forall i :: 0 <= i < |ws| ==> r[i] == LowerText(ws[i])
  {
    seq(|ws|, i requires 0 <= i < |ws| => LowerText(ws[i]))
  }

  lemma LowerTextAppend(a: string, b: string)
    ensures LowerText(a + b) == LowerText(a) + LowerText(b)
  {
  }

  /** Lower-casing commutes with splitting into words: the words of the
      lower-cased text are the lower-cased words of the text. */
  lemma {:induction false} WordsOfLower(s: string)
    ensures Words(LowerText(s)) == LowerAll(Words(s))
    decreases |s|, 1
  {
    if s != [] {
      if !IsLetterOrDigit(s[0]) {
        assert LowerText(s)[1..] == LowerText(s[1..]);
        WordsOfLower(s[1..]);
      } else {
        WordsOfLowerRun(s);
      }
    }
  }

  /** The case of WordsOfLower where the text opens with a word. */
  lemma {:induction false} WordsOfLowerRun(s: string)
    requires s != [] && IsLetterOrDigit(s[0])
    ensures Words(LowerText(s)) == LowerAll(Words(s))
    decreases |s|, 0
  {
    var n := RunLength(s, IsLetterOrDigit);
    var rest := s[n..];
    var head := LowerText(s[..n]);
    assert Words(LowerText(s)) == [head] + Words(LowerText(rest)) by {
      LoweredFirstWord(s);
    }
    assert Words(LowerText(rest)) == LowerAll(Words(rest)) by {
      WordsOfLower(rest);
    }
    assert Words(s) == [s[..n]] + Words(rest);
    assert LowerAll([s[..n]] + Words(rest)) == [head] + LowerAll(Words(rest));
  }

  /** Lower-casing a text that opens with a word splits off that word,
      lower-cased, from the words of the lower-cased remainder. */
  lemma LoweredFirstWord(s: string)
    requires s != [] && IsLetterOrDigit(s[0])
    ensures var n := RunLength(s, IsLetterOrDigit);
      Words(LowerText(s)) == [LowerText(s[..n])] + Words(LowerText(s[n..]))
  {
    var n := RunLength(s, IsLetterOrDigit);
    var rest := s[n..];
    var head := LowerText(s[..n]);
    assert LowerText(s) == head + LowerText(rest) by {
      assert s == s[..n] + rest;
      LowerTextAppend(s[..n], rest);
    }
    assert IsToken(head, IsLetterOrDigit);
    TokensSplit(head, LowerText(rest), IsLetterOrDigit);
    TokensAfterToken(head, [], IsLetterOrDigit);
    assert head + [] == head;
  }

  /** Appending a word to a non-empty word list appends it after a space. */
  lemma {:induction false} JoinSnoc(ws: seq<string>, w: string)
    requires ws != []
    ensures Join(ws + [w]) == Join(ws) + " " + w
  {
    if |ws| == 1 {
      assert ws + [w] == [ws[0], w];
    } else {
      JoinSnoc(ws[1..], w);
      assert (ws + [w])[1..] == ws[1..] + [w];
    }
  }

  /** Text laid out as separator runs and words: seps[i] precedes ws[i]. */
  function Weave(seps: seq<string>, ws: seq<string>): string
    requires |seps| == |ws|
  {
    if ws == [] then [] else seps[0] + ws[0] + Weave(seps[1..], ws[1..])
  }

  /** No character of `s` is kept. */
  predicate AllDropped(s: string, keep: char -> bool)
  {
    forall k :: 0 <= k < |s| ==> !keep(s[k])
  }

  lemma {:induction false} TokensSkip(sep: string, rest: string, keep: char -> bool)
    requires AllDropped(sep, keep)
    ensures Tokens(sep + rest, keep) == Tokens(rest, keep)
    decreases |sep|
  {
    if sep != [] {
      assert (sep + rest)[1..] == sep[1..] + rest;
      TokensSkip(sep[1..], rest, keep);
    } else {
      assert sep + rest == rest;
    }
  }

  /** Tokens separated by non-empty runs of dropped characters (with any run,
      possibly empty, before the first and after the last) come back in order. */
  lemma {:induction false} TokensOfWeave(seps: seq<string>, ws: seq<string>, last: string, keep: char -> bool)
    requires |seps| == |ws|
    requires forall i :: 0 <= i < |seps| ==> AllDropped(seps[i], keep)
    requires forall i :: 0 < i < |seps| ==> seps[i] != []
    requires forall i :: 0 <= i < |ws| ==> IsToken(ws[i], keep)
    requires AllDropped(last, keep)
    ensures Tokens(Weave(seps, ws) + last, keep) == ws
  {
    if ws == [] {
      TokensSkip(last, [], keep);
      assert Weave(seps, ws) + last == last + [];
    } else {
      var rest := Weave(seps[1..], ws[1..]) + last;
      TokensOfWeave(seps[1..], ws[1..], last, keep);
      assert Weave(seps, ws) + last == seps[0] + (ws[0] + rest);
      TokensSkip(seps[0], ws[0] + rest, keep);
      if |ws| > 1 {
        assert rest == seps[1] + ws[1] + Weave(seps[2..], ws[2..]) + last;
        assert rest[0] == seps[1][0];
      } else {
        assert rest == last;
      }
      TokensAfterToken(ws[0], rest, keep);
    }
  }

  /** Words separated by runs of punctuation, brackets, dots, hyphens,
      underscores or white space (and with such runs at either end) normalise
      to the lower-cased words joined by single spaces. */
  lemma StripAndLowerOfWeave(seps: seq<string>, ws: seq<string>, last: string)
    requires |seps| == |ws|
    requires forall i :: 0 <= i < |seps| ==> AllDropped(seps[i], IsLetterOrDigit)
    requires forall i :: 0 < i < |seps| ==> seps[i] != []
    requires forall i :: 0 <= i < |ws| ==> IsToken(ws[i], IsLetterOrDigit)
    requires AllDropped(last, IsLetterOrDigit)
    ensures StripAndLower(Weave(seps, ws) + last) == Join(LowerAll(ws))
  {
    TokensOfWeave(seps, ws, last, IsLetterOrDigit);
    WordsOfLower(Weave(seps, ws) + last);
  }

  /** strip_and_lower is idempotent: normalised text is its own normal form. */
  lemma StripAndLowerIdempotent(text: string)
    ensures StripAndLower(StripAndLower(text)) == StripAndLower(text)
  {
    var r := StripAndLower(text);
    StripAndLowerSpec(text);
    assert LowerText(r) == r;
  }

  /** Normalisation only looks at the words: texts with the same lower-cased
      words normalise alike, whatever separates them. */
  lemma StripAndLowerByWords(a: string, b: string)
    requires Words(LowerText(a)) == Words(LowerText(b))
    ensures StripAndLower(a) == StripAndLower(b)
  {
    var ra, rb := StripAndLower(a), StripAndLower(b);
    assert Fields(ra) == Fields(rb);
  }

  // ---------------------------------------------------------------------------
  // Phrases: contiguous word windows.
  // ---------------------------------------------------------------------------

  /** The `len` consecutive words of `words` that start at word `i`. */
  function Segment(words: seq<string>, i: nat, len: nat): seq<string>
    requires i + len <= |words|
  {
    words[i..i + len]
  }

  /** `p` is the phrase of 1..depth consecutive words of `words`. */
  ghost predicate IsWindow(p: string, words: seq<string>, depth: nat)
  {
    exists i: nat, len: nat :: 1 <= len <= depth && i + len <= |words| && p == Join(Segment(words, i, len))
  }

  /** `q` occurs as a contiguous run of `words`. */
  ghost predicate IsSegment(q: seq<string>, words: seq<string>)
  {
    exists i: nat :: i + |q| <= |words| && Segment(words, i, |q|) == q
  }

  function Min(a: int, b: int): int
  {
    if a < b then a else b
  }

  /** The phrases of 1..depth words that start with the first word. */
  function Prefixes(words: seq<string>, depth: nat): seq<string>
  {
    seq(Min(depth, |words|), k requires 0 <= k < Min(depth, |words|) => Join(words[..k + 1]))
  }

  /** Every phrase of 1..depth words, start position by start position. */
  function Windows(words: seq<string>, depth: nat): seq<string>
  {
    if words == [] then [] else Prefixes(words, depth) + Windows(words[1..], depth)
  }

  lemma {:induction false} WindowsSpec(words: seq<string>, depth: nat)
    ensures forall p :: p in Windows(words, depth) <==> IsWindow(p, words, depth)
  {
    if words != [] {
      var tail := words[1..];
      var pre := Prefixes(words, depth);
      assert forall p :: p in Windows(tail, depth) <==> IsWindow(p, tail, depth) by {
        WindowsSpec(tail, depth);
      }
      assert Windows(words, depth) == pre + Windows(tail, depth);
      forall p | p in pre ensures IsWindow(p, words, depth) {
        PrefixIsWindow(words, depth, p);
      }
      forall p | IsWindow(p, tail, depth) ensures IsWindow(p, words, depth) {
        LaterWindow(words, depth, p);
      }
      forall p | IsWindow(p, words, depth) ensures p in pre || IsWindow(p, tail, depth) {
        WindowSplit(words, depth, p);
      }
    }
  }

  lemma PrefixIsWindow(words: seq<string>, depth: nat, p: string)
    requires p in Prefixes(words, depth)
    ensures IsWindow(p, words, depth)
  {
    var pre := Prefixes(words, depth);
    var k :| 0 <= k < |pre| && pre[k] == p;
    assert Segment(words, 0, k + 1) == words[..k + 1];
  }

  lemma LaterWindow(words: seq<string>, depth: nat, p: string)
    requires words != [] && IsWindow(p, words[1..], depth)
    ensures IsWindow(p, words, depth)
  {
    var tail := words[1..];
    var i: nat, len: nat :| 1 <= len <= depth && i + len <= |tail| && p == Join(Segment(tail, i, len));
    assert Segment(tail, i, len) == Segment(words, i + 1, len);
  }

  lemma WindowSplit(words: seq<string>, depth: nat, p: string)
    requires words != [] && IsWindow(p, words, depth)
    ensures p in Prefixes(words, depth) || IsWindow(p, words[1..], depth)
  {
    var tail := words[1..];
    var i: nat, len: nat :| 1 <= len <= depth && i + len <= |words| && p == Join(Segment(words, i, len));
    if i == 0 {
      assert Segment(words, i, len) == words[..len];
      assert Prefixes(words, depth)[len - 1] == p;
    } else {
      assert Segment(words, i, len) == Segment(tail, i - 1, len);
    }
  }

  /** _build_substrings: the set of all phrases of 1..depth consecutive
      white-space separated words of the text. A depth beyond the word count
      is not an error: it yields every phrase of the text. */
  function BuildSubstrings(text: string, depth: nat): (r: set<string>)
    ensures forall p :: p in r <==> IsWindow(p, Fields(text), depth)
  {
    WindowsSpec(Fields(text), depth);
    set p | p in Windows(Fields(text), depth)
  }

  /** A single-space-joined phrase is built from a text exactly when its words
      are 1..depth consecutive words of the text. */
  lemma PhraseMatch(p: string, text: string, depth: nat)
    requires Join(Fields(p)) == p
    ensures p in BuildSubstrings(text, depth) <==>
      1 <= |Fields(p)| <= depth && IsSegment(Fields(p), Fields(text))
  {
    var ws := Fields(text);
    if p in BuildSubstrings(text, depth) {
      var i: nat, len: nat :| 1 <= len <= depth && i + len <= |ws| && p == Join(Segment(ws, i, len));
      var seg := Segment(ws, i, len);
      assert forall k :: 0 <= k < |seg| ==> seg[k] == ws[i + k];
      TokensOfJoin(seg, IsNonSpace);
      assert Fields(p) == seg;
    }
    if 1 <= |Fields(p)| <= depth && IsSegment(Fields(p), ws) {
      var q := Fields(p);
      var i: nat :| i + |q| <= |ws| && Segment(ws, i, |q|) == q;
      assert IsWindow(p, ws, depth);
    }
  }

  /** Raising the depth never loses a phrase. */
  lemma BuildSubstringsMonotone(text: string, d1: nat, d2: nat)
    requires d1 <= d2
    ensures BuildSubstrings(text, d1) <= BuildSubstrings(text, d2)
  {
    var ws := Fields(text);
    forall p | p in BuildSubstrings(text, d1) ensures p in BuildSubstrings(text, d2) {
      var i: nat, len: nat :| 1 <= len <= d1 && i + len <= |ws| && p == Join(Segment(ws, i, len));
      assert IsWindow(p, ws, d2);
    }
  }

  /** A depth at or beyond the word count is clamped to the word count. */
  lemma BuildSubstringsClamped(text: string, depth: nat)
    requires depth >= |Fields(text)|
    ensures BuildSubstrings(text, depth) == BuildSubstrings(text, |Fields(text)|)
  {
    var ws := Fields(text);
    BuildSubstringsMonotone(text, |ws|, depth);
    forall p | p in BuildSubstrings(text, depth) ensures p in BuildSubstrings(text, |ws|) {
      var i: nat, len: nat :| 1 <= len <= depth && i + len <= |ws| && p == Join(Segment(ws, i, len));
      assert IsWindow(p, ws, |ws|);
    }
  }

  // ---------------------------------------------------------------------------
  // Index entries for a document.
  // ---------------------------------------------------------------------------

  /** Phrase depth used when a document is indexed: the longest query phrase
      that can hit is IndexDepth words long. */
  const IndexDepth: nat := 4

  /** The elements of `s` without repetitions, in order of first occurrence. */
  function Dedup(s: seq<string>): (r: seq<string>)
    ensures forall x :: x in r <==> x in s
    ensures forall i, j :: 0 <= i < j < |r| ==> r[i] != r[j]
  {
    if s == [] then []
    else
      var r := Dedup(s[..|s| - 1]);
      assert s == s[..|s| - 1] + [s[|s| - 1]];
      if s[|s| - 1] in r then r else r + [s[|s| - 1]]
  }

  /** build_indexes_from_timstamped_dto: one index entry per distinct phrase
      of the normalised value, each pointing at the blob `rowKey` and carrying
      the document's source, data name and timestamp. */
  function BuildIndexes(dto: TimestampedData, rowKey: BlobKey): (r: seq<BlobIndex>)
    ensures forall i :: 0 <= i < |r| ==>
      && r[i].sourceId == dto.sourceId && r[i].dataName == dto.dataName
      && r[i].timestamp == dto.timestamp && r[i].blobRowKey == rowKey
    ensures forall i, j :: 0 <= i < j < |r| ==> r[i].term != r[j].term
    ensures forall p :: p in BuildSubstrings(StripAndLower(dto.dataValue), IndexDepth) <==>
      exists i :: 0 <= i < |r| && r[i].term == p
  {
    var text := StripAndLower(dto.dataValue);
    var terms := Dedup(Windows(Fields(text), IndexDepth));
    var r := seq(|terms|, i requires 0 <= i < |terms| =>
      BlobIndex(dto.sourceId, dto.dataName, terms[i], dto.timestamp, rowKey));
    forall p | p in terms ensures exists i :: 0 <= i < |r| && r[i].term == p {
      var k :| 0 <= k < |terms| && terms[k] == p;
      assert r[k].term == p;
    }
    r
  }
}
