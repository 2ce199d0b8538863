/**
 * The lexicon-based sentiment scorer of the fair job: removePunctuation turns a
 * tweet's text into tokens, getSentiment adds one for every positive-lexicon entry a
 * token equals and subtracts one for every negative-lexicon entry it equals.
 */
module Sentiment {
  import opened Ascii

  /** The positive lexicon, in source order. Entry 13 is a three-word phrase. */
  const PosWords: seq<string> := ["plezier", "genieten", "zin",
    "geweldig", "geweldige", "fantastisch", "fantastische", "goed",
    "goede", "leuk", "leuke", "lekker", "lekkere", "van de partij",
    "jippie", "gezellig", "gezellige"]

  /** The negative lexicon, in source order. */
  const NegWords: seq<string> := ["dwang", "teleurstellend",
    "teleurstellende", "jammer", "saai", "saaie", "vervelend",
    "vervelende"]

  // ---------------------------------------------------------------------------
  // Tokenisation (removePunctuation)
  // ---------------------------------------------------------------------------

  /** The characters the character class [^a-zA-Z ] does not match, i.e. those kept. */
  predicate Kept(c: char) { 'a' <= c <= 'z' || 'A' <= c <= 'Z' || c == ' ' }

  /** replaceAll("[^a-zA-Z ]", ""): every other character is deleted. */
  function StripPunctuation(s: string): (r: string)
    ensures forall i :: 0 <= i < |r| ==> Kept(r[i])
    ensures (forall i :: 0 <= i < |s| ==> Kept(s[i])) ==> r == s
  {
    if s == [] then [] else (if Kept(s[0]) then [s[0]] else []) + StripPunctuation(s[1..])
  }

  lemma {:induction false} StripAppend(a: string, b: string)
    ensures StripPunctuation(a + b) == StripPunctuation(a) + StripPunctuation(b)
  {
    if a != [] {
      assert (a + b)[1..] == a[1..] + b;
      StripAppend(a[1..], b);
    } else {
      assert a + b == b;
    }
  }

  /** The length of the run of non-space characters that starts s. */
  function RunLength(s: string): (k: nat)
    ensures k <= |s|
    ensures forall i :: 0 <= i < k ==> s[i] != ' '
    ensures k < |s| ==> s[k] == ' '
  {
    if s == [] || s[0] == ' ' then 0 else 1 + RunLength(s[1..])
  }

  /** The maximal runs of non-space characters of s, from left to right. */
  function Words(s: string): (ws: seq<string>)
    ensures forall w :: w in ws ==> w != [] && forall c :: c in w ==> c != ' ' && c in s
    decreases |s|
  {
    if s == [] then []
    else if s[0] == ' ' then Words(s[1..])
    else
      var k := RunLength(s);
      [s[..k]] + Words(s[k..])
  }

  /**
   * String.split("\\s+") on a string whose only whitespace character is ' ': a string
   * with no separator is its own single token (so "" gives [""]), a separator at the
   * very start yields a leading empty token, and trailing empty tokens are dropped,
   * which leaves nothing of a string made of spaces only.
   */
  function SplitOnSpaces(s: string): (tokens: seq<string>)
  {
    var ws := Words(s);
    if s == [] then [""]
    else if ws == [] then []
    else if s[0] == ' ' then [""] + ws
    else ws
  }

  /** removePunctuation: delete, lower-case, split. */
  function RemovePunctuation(text: string): (tokens: seq<string>)
    ensures forall t :: t in tokens ==> forall c :: c in t ==> 'a' <= c <= 'z'
  {
    var s := Lower(StripPunctuation(text));
    assert forall c :: c in s && c != ' ' ==> 'a' <= c <= 'z' by {
      forall c | c in s && c != ' ' ensures 'a' <= c <= 'z' {
        var i :| 0 <= i < |s| && s[i] == c;
      }
    }
    SplitOnSpaces(s)
  }

  /** A space separates words: the words on either side of it stay apart. */
  lemma {:induction false} SpaceSeparatesWords(a: string, b: string)
    ensures Words(a + [' '] + b) == Words(a) + Words(b)
    decreases |a|
  {
    var s := a + [' '] + b;
    if a == [] {
      assert s[1..] == b;
    } else if a[0] == ' ' {
      assert s[1..] == a[1..] + [' '] + b;
      SpaceSeparatesWords(a[1..], b);
    } else {
      var k := RunLength(a);
      RunLengthBeforeSpace(a, b);
      assert s[..k] == a[..k];
      assert s[k..] == a[k..] + [' '] + b;
      SpaceSeparatesWords(a[k..], b);
    }
  }

  lemma {:induction false} RunLengthBeforeSpace(a: string, b: string)
    ensures RunLength(a + [' '] + b) == RunLength(a)
  {
    if a != [] && a[0] != ' ' {
      assert (a + [' '] + b)[1..] == a[1..] + [' '] + b;
      RunLengthBeforeSpace(a[1..], b);
    }
  }

  /**
   * A deleted character is not a separator: removing a character outside [a-zA-Z ]
   * glues its neighbours together rather than splitting them.
   */
  lemma DeletedCharacterIsNoSeparator(a: string, c: char, b: string)
    requires !Kept(c)
    ensures RemovePunctuation(a + [c] + b) == RemovePunctuation(a + b)
  {
    StripAppend(a + [c], b);
    StripAppend(a, [c]);
    StripAppend(a, b);
    assert StripPunctuation([c]) == [];
    assert StripPunctuation(a + [c] + b) == StripPunctuation(a + b);
  }

  /** No token contains a space, so a lexicon entry with a space equals no token. */
  lemma NoTokenContainsSpace(text: string, entry: string)
    requires ' ' in entry
    ensures entry !in RemovePunctuation(text)
  {
  }

  /** A word of letters only: what a tokenised word looks like before folding. */
  predicate IsLetterWord(w: string) {
    w != [] && forall i :: 0 <= i < |w| ==> 'a' <= w[i] <= 'z' || 'A' <= w[i] <= 'Z'
  }

  /** The words joined by single spaces. */
  function Join(ws: seq<string>): string
  {
    if ws == [] then "" else if |ws| == 1 then ws[0] else ws[0] + [' '] + Join(ws[1..])
  }

  function LowerAll(ws: seq<string>): seq<string>
  {
    seq(|ws|, i requires 0 <= i < |ws| => Lower(ws[i]))
  }

  lemma WordsOfWord(w: string)
    requires w != [] && ' ' !in w
    ensures Words(w) == [w]
  {
    var k := RunLength(w);
    assert forall i :: 0 <= i < |w| ==> w[i] != ' ';
    assert w[..k] == w;
    assert w[k..] == [];
  }

  lemma {:induction false} WordsOfJoin(ws: seq<string>)
    requires forall w :: w in ws ==> w != [] && ' ' !in w
    ensures Words(Join(ws)) == ws
  {
    if |ws| == 1 {
      assert ws[0] in ws;
      WordsOfWord(ws[0]);
    } else if |ws| > 1 {
      assert ws[0] in ws;
      assert forall w :: w in ws[1..] ==> w in ws;
      SpaceSeparatesWords(ws[0], Join(ws[1..]));
      WordsOfWord(ws[0]);
      WordsOfJoin(ws[1..]);
      assert [ws[0]] + ws[1..] == ws;
    }
  }

  lemma {:induction false} JoinIsKept(ws: seq<string>)
    requires forall w :: w in ws ==> IsLetterWord(w)
    ensures forall i :: 0 <= i < |Join(ws)| ==> Kept(Join(ws)[i])
  {
    if |ws| == 1 {
      assert ws[0] in ws;
    } else if |ws| > 1 {
      assert ws[0] in ws;
      assert forall w :: w in ws[1..] ==> w in ws;
      JoinIsKept(ws[1..]);
    }
  }

  lemma {:induction false} LowerJoin(ws: seq<string>)
    ensures Lower(Join(ws)) == Join(LowerAll(ws))
  {
    if |ws| > 1 {
      LowerJoin(ws[1..]);
      LowerAppend(ws[0] + [' '], Join(ws[1..]));
      LowerAppend(ws[0], [' ']);
      assert Lower([' ']) == [' '];
      assert LowerAll(ws)[1..] == LowerAll(ws[1..]);
    }
  }

  /**
   * Tokenising undoes joining: letter words separated by single spaces come back
   * as the same words, lower-cased, in the same order.
   */
  lemma RemovePunctuationOfJoin(ws: seq<string>)
    requires ws != [] && forall w :: w in ws ==> IsLetterWord(w)
    ensures RemovePunctuation(Join(ws)) == LowerAll(ws)
  {
    JoinIsKept(ws);
    LowerJoin(ws);
    var lowered := LowerAll(ws);
    forall w | w in lowered ensures w != [] && ' ' !in w {
      var i :| 0 <= i < |lowered| && lowered[i] == w;
      assert ws[i] in ws;
    }
    WordsOfJoin(lowered);
    assert ws[0] in ws;
    assert Join(lowered)[0] == lowered[0][0];
  }

  /**
   * split("\\s+") keeps a leading empty token: a text that starts with a space gives
   * "" before its words.
   */
  lemma LeadingSpaceGivesEmptyToken(ws: seq<string>)
    requires ws != [] && forall w :: w in ws ==> IsLetterWord(w)
    ensures RemovePunctuation([' '] + Join(ws)) == [""] + LowerAll(ws)
  {
    var s := [' '] + Join(ws);
    JoinIsKept(ws);
    assert forall i :: 0 <= i < |s| ==> Kept(s[i]);
    LowerAppend([' '], Join(ws));
    LowerJoin(ws);
    assert Lower([' ']) == [' '];
    var lowered := LowerAll(ws);
    var t := [' '] + Join(lowered);
    assert Lower(StripPunctuation(s)) == t;
    forall w | w in lowered ensures w != [] && ' ' !in w {
      var i :| 0 <= i < |lowered| && lowered[i] == w;
      assert ws[i] in ws;
    }
    WordsOfJoin(lowered);
    assert t[1..] == Join(lowered);
  }

  lemma {:induction false} WordsOfSpaces(s: string)
    requires forall i :: 0 <= i < |s| ==> s[i] == ' '
    ensures Words(s) == []
  {
    if s != [] {
      WordsOfSpaces(s[1..]);
    }
  }

  /** split("\\s+") drops trailing empty tokens, so a text of spaces only has no token. */
  lemma SpacesGiveNoTokens(s: string)
    requires s != [] && forall i :: 0 <= i < |s| ==> s[i] == ' '
    ensures RemovePunctuation(s) == []
  {
    assert forall i :: 0 <= i < |s| ==> Lower(s)[i] == s[i];
    assert Lower(s) == s;
    WordsOfSpaces(s);
  }

  // ---------------------------------------------------------------------------
  // Scoring (getSentiment)
  // ---------------------------------------------------------------------------

  /** How many entries of lexicon equal word: each loop compares word with every entry. */
  function Occurrences(lexicon: seq<string>, word: string): nat
  {
    if lexicon == [] then 0
    else Occurrences(lexicon[..|lexicon| - 1], word) + (if lexicon[|lexicon| - 1] == word then 1 else 0)
  }

  /** One token's contribution: the positive and the negative checks are independent. */
  function WordScore(pos: seq<string>, neg: seq<string>, word: string): int
  {
    Occurrences(pos, word) - Occurrences(neg, word)
  }

  /** The running sentiment after scoring tokens from first to last. */
  function Score(pos: seq<string>, neg: seq<string>, tokens: seq<string>): int
  {
    if tokens == [] then 0
    else Score(pos, neg, tokens[..|tokens| - 1]) + WordScore(pos, neg, tokens[|tokens| - 1])
  }

  /** The score getSentiment gives a tweet text. */
  function TextScore(text: string): int
  {
    Score(PosWords, NegWords, RemovePunctuation(text))
  }

  method GetSentiment(textTweet: string) returns (sentiment: int)
    ensures sentiment == TextScore(textTweet)
  {
    sentiment := 0;
    var words := RemovePunctuation(textTweet);
    for w := 0 to |words|
      invariant sentiment == Score(PosWords, NegWords, words[..w])
    {
      var word := words[w];
      ghost var before := sentiment;
      for p := 0 to |PosWords|
        invariant sentiment == before + Occurrences(PosWords[..p], word)
      {
        assert PosWords[..p + 1][..p] == PosWords[..p];
        sentiment := if PosWords[p] == word then sentiment + 1 else sentiment;
      }
      assert PosWords[..|PosWords|] == PosWords;
      for n := 0 to |NegWords|
        invariant sentiment == before + Occurrences(PosWords, word) - Occurrences(NegWords[..n], word)
      {
        assert NegWords[..n + 1][..n] == NegWords[..n];
        sentiment := if NegWords[n] == word then sentiment - 1 else sentiment;
      }
      assert NegWords[..|NegWords|] == NegWords;
      assert words[..w + 1][..w] == words[..w];
    }
    assert words[..|words|] == words;
  }

  // ---------------------------------------------------------------------------
  // What the score means
  // ---------------------------------------------------------------------------

  predicate Distinct(lexicon: seq<string>) {
    forall i, j :: 0 <= i < j < |lexicon| ==> lexicon[i] != lexicon[j]
  }

  /** Neither lexicon lists a word twice, and no word is in both. */
  lemma LexiconsAreDistinct()
    ensures Distinct(PosWords) && Distinct(NegWords)
    ensures forall w :: w in PosWords ==> w !in NegWords
  {
  }

  lemma {:induction false} OccurrencesOfDistinct(lexicon: seq<string>, word: string)
    requires Distinct(lexicon)
    ensures Occurrences(lexicon, word) == if word in lexicon then 1 else 0
  {
    if lexicon != [] {
      var init := lexicon[..|lexicon| - 1];
      assert lexicon == init + [lexicon[|lexicon| - 1]];
      OccurrencesOfDistinct(init, word);
    }
  }

  lemma {:induction false} OccurrencesAppend(a: seq<string>, b: seq<string>, word: string)
    ensures Occurrences(a + b, word) == Occurrences(a, word) + Occurrences(b, word)
  {
    if b == [] {
      assert a + b == a;
    } else {
      assert (a + b)[..|a + b| - 1] == a + b[..|b| - 1];
      OccurrencesAppend(a, b[..|b| - 1], word);
    }
  }

  /** The number of tokens that are entries of lexicon. */
  function CountFound(tokens: seq<string>, lexicon: seq<string>): nat
  {
    if tokens == [] then 0
    else CountFound(tokens[..|tokens| - 1], lexicon) + (if tokens[|tokens| - 1] in lexicon then 1 else 0)
  }

  /** The score is the number of positive tokens minus the number of negative tokens. */
  lemma {:induction false} ScoreIsCountDifference(tokens: seq<string>)
    ensures Score(PosWords, NegWords, tokens) == CountFound(tokens, PosWords) - CountFound(tokens, NegWords)
  {
    if tokens != [] {
      LexiconsAreDistinct();
      OccurrencesOfDistinct(PosWords, tokens[|tokens| - 1]);
      OccurrencesOfDistinct(NegWords, tokens[|tokens| - 1]);
      ScoreIsCountDifference(tokens[..|tokens| - 1]);
    }
  }

  /** getSentiment(t) counts the lexicon tokens of removePunctuation(t). */
  lemma TextScoreIsCountDifference(text: string)
    ensures TextScore(text) == CountFound(RemovePunctuation(text), PosWords) - CountFound(RemovePunctuation(text), NegWords)
  {
    ScoreIsCountDifference(RemovePunctuation(text));
  }

  /** The positive and the negative checks add up separately. */
  lemma {:induction false} ChecksAreIndependent(pos: seq<string>, neg: seq<string>, tokens: seq<string>)
    ensures Score(pos, neg, tokens) == Score(pos, [], tokens) + Score([], neg, tokens)
  {
    if tokens != [] {
      ChecksAreIndependent(pos, neg, tokens[..|tokens| - 1]);
    }
  }

  /** A word listed once in each lexicon nets zero. */
  lemma WordInBothListsNetsZero(pos: seq<string>, neg: seq<string>, word: string)
    requires Distinct(pos) && Distinct(neg)
    requires word in pos && word in neg
    ensures WordScore(pos, neg, word) == 0
  {
    OccurrencesOfDistinct(pos, word);
    OccurrencesOfDistinct(neg, word);
  }

  lemma {:induction false} OccurrencesOfAbsent(lexicon: seq<string>, word: string)
    requires word !in lexicon
    ensures Occurrences(lexicon, word) == 0
  {
    if lexicon != [] {
      OccurrencesOfAbsent(lexicon[..|lexicon| - 1], word);
    }
  }

  lemma {:induction false} ScoreOfUnlistedTokens(pos: seq<string>, neg: seq<string>, tokens: seq<string>)
    requires forall t :: t in tokens ==> t !in pos && t !in neg
    ensures Score(pos, neg, tokens) == 0
  {
    if tokens != [] {
      OccurrencesOfAbsent(pos, tokens[|tokens| - 1]);
      OccurrencesOfAbsent(neg, tokens[|tokens| - 1]);
      ScoreOfUnlistedTokens(pos, neg, tokens[..|tokens| - 1]);
    }
  }

  /** Text without a single lexicon word scores 0. */
  lemma NoLexiconWordScoresZero(text: string)
    requires forall t :: t in RemovePunctuation(text) ==> t !in PosWords && t !in NegWords
    ensures TextScore(text) == 0
  {
    ScoreOfUnlistedTokens(PosWords, NegWords, RemovePunctuation(text));
  }

  /** The empty text is the single empty token, which scores 0. */
  lemma EmptyTextScoresZero()
    ensures RemovePunctuation("") == [""]
    ensures TextScore("") == 0
  {
    NoLexiconWordScoresZero("");
  }

  lemma {:induction false} ScoreRespectsWordScore(pos: seq<string>, neg: seq<string>, pos': seq<string>, neg': seq<string>, tokens: seq<string>)
    requires forall t :: t in tokens ==> WordScore(pos, neg, t) == WordScore(pos', neg', t)
    ensures Score(pos, neg, tokens) == Score(pos', neg', tokens)
  {
    if tokens != [] {
      ScoreRespectsWordScore(pos, neg, pos', neg', tokens[..|tokens| - 1]);
    }
  }

  lemma {:induction false} ScoreAppend(pos: seq<string>, neg: seq<string>, a: seq<string>, b: seq<string>)
    ensures Score(pos, neg, a + b) == Score(pos, neg, a) + Score(pos, neg, b)
  {
    if b == [] {
      assert a + b == a;
    } else {
      var b' := b[..|b| - 1];
      assert (a + b)[..|a + b| - 1] == a + b';
      ScoreAppend(pos, neg, a, b');
    }
  }

  /** Against the source's lexicons a token scores +1, -1 or 0 by which list holds it. */
  lemma LexiconWordScore(word: string)
    ensures WordScore(PosWords, NegWords, word) == (if word in PosWords then 1 else 0) - (if word in NegWords then 1 else 0)
  {
    LexiconsAreDistinct();
    OccurrencesOfDistinct(PosWords, word);
    OccurrencesOfDistinct(NegWords, word);
  }

  /** The entry "van de partij" never contributes: the score is the same without it. */
  lemma PhraseEntryNeverContributes(text: string)
    ensures PosWords[13] == "van de partij"
    ensures TextScore(text) == Score(PosWords[..13] + PosWords[14..], NegWords, RemovePunctuation(text))
  {
    var tokens := RemovePunctuation(text);
    var phrase := PosWords[13];
    assert PosWords == PosWords[..13] + [phrase] + PosWords[14..];
    forall t | t in tokens
      ensures WordScore(PosWords, NegWords, t) == WordScore(PosWords[..13] + PosWords[14..], NegWords, t)
    {
      assert phrase[3] == ' ';
      NoTokenContainsSpace(text, phrase);
      OccurrencesAppend(PosWords[..13] + [phrase], PosWords[14..], t);
      OccurrencesAppend(PosWords[..13], [phrase], t);
      OccurrencesAppend(PosWords[..13], PosWords[14..], t);
      assert [phrase][..0] == [];
    }
    ScoreRespectsWordScore(PosWords, NegWords, PosWords[..13] + PosWords[14..], NegWords, tokens);
  }
}
