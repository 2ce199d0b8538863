/**
 * The reduce side of the fair job: every (count, sentiment) pair written for one
 * fair name is added up component-wise into one total pair for that name.
 */
module FairReducer {
  import opened Wrappers
  import opened Sums
  import opened Fairs
  import opened Sentiment
  import opened FairMapper

  function CountOf(v: Counts): int { v.count }

  function SentimentOf(v: Counts): int { v.sentiment }

  /** The component-wise sum of a fair's values. */
  function Total(values: seq<Counts>): Counts
  {
    Counts(SumBy(values, CountOf), SumBy(values, SentimentOf))
  }

  function Add(x: Counts, y: Counts): Counts
  {
    Counts(x.count + y.count, x.sentiment + y.sentiment)
  }

  /** reduce: the key goes out unchanged with the totals of both components. */
  method Reduce(key: string, values: seq<Counts>) returns (outKey: string, result: Counts)
    ensures outKey == key
    ensures result == Total(values)
  {
    var count := 0;
    var sentiment := 0;
    for i := 0 to |values|
      invariant count == SumBy(values[..i], CountOf)
      invariant sentiment == SumBy(values[..i], SentimentOf)
    {
      assert values[..i + 1][..i] == values[..i];
      count := count + values[i].count;
      sentiment := sentiment + values[i].sentiment;
    }
    assert values[..|values|] == values;
    outKey, result := key, Counts(count, sentiment);
  }

  /** A key with no values totals [0, 0]. */
  lemma TotalOfNoValues()
    ensures Total([]) == Counts(0, 0)
  {
  }

  /** The order in which the framework delivers the values does not matter. */
  lemma TotalIsOrderFree(a: seq<Counts>, b: seq<Counts>)
    requires multiset(a) == multiset(b)
    ensures Total(a) == Total(b)
  {
    SumByPermutation(a, b, CountOf);
    SumByPermutation(a, b, SentimentOf);
  }

  /** Reducing two parts of the values separately and adding gives the total of the whole. */
  lemma TotalOfParts(a: seq<Counts>, b: seq<Counts>)
    ensures Total(a + b) == Add(Total(a), Total(b))
  {
    SumByAppend(a, b, CountOf);
    SumByAppend(a, b, SentimentOf);
  }

  /** When the tweets give one count each, the count total is the number of values. */
  lemma CountTotalOfSingleCounts(values: seq<Counts>)
    requires forall i :: 0 <= i < |values| ==> values[i].count == 1
    ensures Total(values).count == |values|
  {
    SumByConstant(values, CountOf, 1);
  }

  // ---------------------------------------------------------------------------
  // Grouping the writes of map by key
  // ---------------------------------------------------------------------------

  /** The values written under key, in the order they were written. */
  function ValuesFor(writes: seq<Emission>, key: string): seq<Counts>
  {
    if writes == [] then []
    else
      var e := writes[|writes| - 1];
      ValuesFor(writes[..|writes| - 1], key) + (if e.key == key then [e.value] else [])
  }

  lemma {:induction false} ValuesForAppend(a: seq<Emission>, b: seq<Emission>, key: string)
    ensures ValuesFor(a + b, key) == ValuesFor(a, key) + ValuesFor(b, key)
  {
    if b == [] {
      assert a + b == a;
    } else {
      var b' := b[..|b| - 1];
      assert (a + b)[..|a + b| - 1] == a + b';
      ValuesForAppend(a, b', key);
    }
  }

  lemma {:induction false} ValuesForMembers(writes: seq<Emission>, key: string, v: Counts)
    ensures v in ValuesFor(writes, key) <==> Emission(key, v) in writes
  {
    if writes != [] {
      var init := writes[..|writes| - 1];
      assert writes == init + [writes[|writes| - 1]];
      ValuesForMembers(init, key, v);
    }
  }

  /**
   * Splitting the writes of the job into two streams and adding the totals each
   * gives per key equals the total of the whole stream.
   */
  lemma KeyTotalOfStreams(a: seq<Emission>, b: seq<Emission>, key: string)
    ensures Total(ValuesFor(a + b, key)) == Add(Total(ValuesFor(a, key)), Total(ValuesFor(b, key)))
  {
    ValuesForAppend(a, b, key);
    TotalOfParts(ValuesFor(a, key), ValuesFor(b, key));
  }

  /** Grouping the writes for a list of hits by a fair's name counts that fair's copies. */
  lemma {:induction false} EmitValuesCount(fairs: seq<Fair>, hits: seq<Fair>, s: int, g: Fair)
    requires DistinctFairs(fairs) && g in fairs
    requires forall h :: h in hits ==> h in fairs
    ensures |ValuesFor(Emit(hits, s), g.name)| == multiset(hits)[g]
  {
    if hits != [] {
      var init, f := hits[..|hits| - 1], hits[|hits| - 1];
      assert hits == init + [f];
      var es := Emit(hits, s);
      assert es[..|es| - 1] == Emit(init, s);
      EmitValuesCount(fairs, init, s, g);
      if f.name == g.name {
        DistinctNames(fairs, f, g);
      }
    }
  }

  /**
   * How many times the hashtag pass writes a fair: once per (hashtag, alias) pair of
   * that fair, or never when the tweet comes from the fair's own account; the other
   * fairs' counts do not depend on who the author is.
   */
  lemma HashtagWritesPerFair(fairs: seq<Fair>, tweet: Tweet, g: Fair)
    requires DistinctFairs(fairs) && g in fairs
    requires tweet.entities.Some? && tweet.author.Some? && tweet.text.Some?
    requires HashtagHits(fairs, tweet.entities.value.hashtags) != []
    ensures Classify(fairs, Some(tweet)).Emitted?
    ensures |ValuesFor(Classify(fairs, Some(tweet)).writes, g.name)| ==
            if tweet.author.value == g.account then 0 else PairMatches([g], tweet.entities.value.hashtags)
  {
    HashtagPassDecides(fairs, tweet);
    var hts := tweet.entities.value.hashtags;
    var hits := HashtagHits(fairs, hts);
    var counted := NotAuthoredBy(hits, tweet.author);
    forall h | h in counted ensures h in fairs {
      NotAuthoredByMembers(hits, tweet.author, h);
      HashtagHitsMembers(fairs, hts, h);
    }
    DistinctFairsListOnce(fairs, g);
    EmitValuesCount(fairs, counted, TextScore(tweet.text.value), g);
    NotAuthoredByCopies(hits, tweet.author, g);
    HashtagHitsCopies(fairs, hts, g);
  }

  /** How many times the mention pass writes a fair: once per mention of its account. */
  lemma MentionWritesPerFair(fairs: seq<Fair>, tweet: Tweet, g: Fair)
    requires DistinctFairs(fairs) && g in fairs
    requires tweet.entities.Some? && tweet.text.Some?
    requires HashtagHits(fairs, tweet.entities.value.hashtags) == []
    ensures Classify(fairs, Some(tweet)).Emitted?
    ensures |ValuesFor(Classify(fairs, Some(tweet)).writes, g.name)| == MentionsOf(tweet.entities.value.mentions, g.account)
  {
    MentionPassDecides(fairs, tweet);
    var ms := tweet.entities.value.mentions;
    var mentioned := MentionHits(fairs, ms);
    forall h | h in mentioned ensures h in fairs {
      MentionHitsMembers(fairs, ms, h);
    }
    DistinctFairsListOnce(fairs, g);
    EmitValuesCount(fairs, mentioned, TextScore(tweet.text.value), g);
    MentionHitsCopies(fairs, ms, g);
  }

  /**
   * For the writes map makes for one tweet, the count total of a fair is the number
   * of times it was written, and the sentiment total is that number times the tweet's score.
   */
  lemma KeyTotalOfOneTweet(fairs: seq<Fair>, parsed: Option<Tweet>, key: string)
    requires Classify(fairs, parsed).Emitted?
    ensures var values := ValuesFor(Classify(fairs, parsed).writes, key);
            Total(values).count == |values| &&
            (values != [] ==> Total(values).sentiment == TextScore(parsed.value.text.value) * |values|)
  {
    var writes := Classify(fairs, parsed).writes;
    var values := ValuesFor(writes, key);
    forall i | 0 <= i < |values| ensures values[i].count == 1 {
      ValuesForMembers(writes, key, values[i]);
      EmissionsAreWellFormed(fairs, parsed, Emission(key, values[i]));
    }
    CountTotalOfSingleCounts(values);
    if values != [] {
      ValuesForMembers(writes, key, values[0]);
      EmissionsAreWellFormed(fairs, parsed, Emission(key, values[0]));
      var s := TextScore(parsed.value.text.value);
      forall i | 0 <= i < |values| ensures SentimentOf(values[i]) == s {
        ValuesForMembers(writes, key, values[i]);
        EmissionsAreWellFormed(fairs, parsed, Emission(key, values[i]));
      }
      SumByConstant(values, SentimentOf, s);
    }
  }
}
