/**
 * The mapper of the fair job. For one parsed tweet it emits zero or more
 * (fair name, [1, sentiment]) pairs: first every (tweet hashtag, fair, alias) triple
 * whose lower-cased hashtag equals the alias, except when the tweet's author is that
 * fair's own account; then, only if no alias matched at all, every (mention, fair)
 * pair whose lower-cased screen name equals the fair's account.
 */
module FairMapper {
  import opened Wrappers
  import opened Ascii
  import opened Fairs
  import opened Sentiment

  /** The hashtag texts and the mentioned screen names of a tweet, in tweet order. */
  datatype Entities = Entities(hashtags: seq<string>, mentions: seq<string>)

  /**
   * A parsed tweet: its "entities" object (None when the key is missing or null), its
   * "text" (None when null) and its author's screen name (None when "user" or its
   * "screen_name" is null).
   */
  datatype Tweet = Tweet(entities: Option<Entities>, text: Option<string>, author: Option<string>)

  /** The mapper's value: a mention count and a sentiment score. */
  datatype Counts = Counts(count: int, sentiment: int)

  /** One context.write of the mapper. */
  datatype Emission = Emission(key: string, value: Counts)

  /**
   * What one call of map leaves behind: the pairs it wrote, or Crashed when it
   * dereferences a null text or user (an uncaught NullPointerException fails the task).
   */
  datatype MapOutcome = Emitted(writes: seq<Emission>) | Crashed

  // ---------------------------------------------------------------------------
  // The matches, in the order the loops find them
  // ---------------------------------------------------------------------------

  /** One entry of f for every alias of f equal to tag (the innermost loop). */
  function AliasHits(f: Fair, aliases: seq<string>, tag: string): seq<Fair>
  {
    if aliases == [] then []
    else AliasHits(f, aliases[..|aliases| - 1], tag) + (if aliases[|aliases| - 1] == tag then [f] else [])
  }

  /** The alias matches of one (already lower-cased) hashtag, fair by fair. */
  function TagHits(fairs: seq<Fair>, tag: string): seq<Fair>
  {
    if fairs == [] then []
    else
      var f := fairs[|fairs| - 1];
      TagHits(fairs[..|fairs| - 1], tag) + AliasHits(f, f.hashtags, tag)
  }

  /** The alias matches of all hashtags of a tweet, hashtag by hashtag. */
  function HashtagHits(fairs: seq<Fair>, hashtags: seq<string>): seq<Fair>
  {
    if hashtags == [] then []
    else HashtagHits(fairs, hashtags[..|hashtags| - 1]) + TagHits(fairs, Lower(hashtags[|hashtags| - 1]))
  }

  /** The fairs whose account is name, in table order. */
  function AccountHits(fairs: seq<Fair>, name: string): seq<Fair>
  {
    if fairs == [] then []
    else
      var f := fairs[|fairs| - 1];
      AccountHits(fairs[..|fairs| - 1], name) + (if f.account == name then [f] else [])
  }

  /** The account matches of all mentions of a tweet, mention by mention. */
  function MentionHits(fairs: seq<Fair>, mentions: seq<string>): seq<Fair>
  {
    if mentions == [] then []
    else MentionHits(fairs, mentions[..|mentions| - 1]) + AccountHits(fairs, Lower(mentions[|mentions| - 1]))
  }

  /** The hashtag matches that are not the fair's own account tweeting (exact comparison). */
  function NotAuthoredBy(hits: seq<Fair>, author: Option<string>): seq<Fair>
  {
    if hits == [] then []
    else
      var f := hits[|hits| - 1];
      NotAuthoredBy(hits[..|hits| - 1], author) + (if author != Some(f.account) then [f] else [])
  }

  // Which fairs the passes find: each hit function holds exactly the fairs its rule admits.

  lemma {:induction false} AliasHitsMembers(f: Fair, aliases: seq<string>, tag: string, g: Fair)
    ensures g in AliasHits(f, aliases, tag) <==> g == f && tag in aliases
  {
    if aliases != [] {
      var init := aliases[..|aliases| - 1];
      assert aliases == init + [aliases[|aliases| - 1]];
      AliasHitsMembers(f, init, tag, g);
    }
  }

  lemma {:induction false} TagHitsMembers(fairs: seq<Fair>, tag: string, g: Fair)
    ensures g in TagHits(fairs, tag) <==> g in fairs && tag in g.hashtags
  {
    if fairs != [] {
      var init := fairs[..|fairs| - 1];
      var f := fairs[|fairs| - 1];
      assert fairs == init + [f];
      TagHitsMembers(init, tag, g);
      AliasHitsMembers(f, f.hashtags, tag, g);
    }
  }

  lemma {:induction false} HashtagHitsMembers(fairs: seq<Fair>, hashtags: seq<string>, g: Fair)
    ensures g in HashtagHits(fairs, hashtags) <==> g in fairs && exists h :: h in hashtags && Lower(h) in g.hashtags
  {
    if hashtags != [] {
      var init := hashtags[..|hashtags| - 1];
      var last := hashtags[|hashtags| - 1];
      assert hashtags == init + [last];
      HashtagHitsMembers(fairs, init, g);
      TagHitsMembers(fairs, Lower(last), g);
      if g in fairs && exists h :: h in hashtags && Lower(h) in g.hashtags {
        var h :| h in hashtags && Lower(h) in g.hashtags;
        assert h == last || h in init;
      }
    }
  }

  lemma {:induction false} AccountHitsMembers(fairs: seq<Fair>, name: string, g: Fair)
    ensures g in AccountHits(fairs, name) <==> g in fairs && g.account == name
  {
    if fairs != [] {
      var init := fairs[..|fairs| - 1];
      assert fairs == init + [fairs[|fairs| - 1]];
      AccountHitsMembers(init, name, g);
    }
  }

  lemma {:induction false} MentionHitsMembers(fairs: seq<Fair>, mentions: seq<string>, g: Fair)
    ensures g in MentionHits(fairs, mentions) <==> g in fairs && exists m :: m in mentions && Lower(m) == g.account
  {
    if mentions != [] {
      var init := mentions[..|mentions| - 1];
      var last := mentions[|mentions| - 1];
      assert mentions == init + [last];
      MentionHitsMembers(fairs, init, g);
      AccountHitsMembers(fairs, Lower(last), g);
      if g in fairs && exists m :: m in mentions && Lower(m) == g.account {
        var m :| m in mentions && Lower(m) == g.account;
        assert m == last || m in init;
      }
    }
  }

  lemma {:induction false} NotAuthoredByMembers(hits: seq<Fair>, author: Option<string>, g: Fair)
    ensures g in NotAuthoredBy(hits, author) <==> g in hits && author != Some(g.account)
  {
    if hits != [] {
      var init := hits[..|hits| - 1];
      assert hits == init + [hits[|hits| - 1]];
      NotAuthoredByMembers(init, author, g);
    }
  }

  // How many hits: one per (hashtag, alias) pair that matches, so a fair tagged twice is hit twice.

  /** The number of (fair, alias) pairs whose alias is tag. */
  function AliasMatches(fairs: seq<Fair>, tag: string): nat
  {
    if fairs == [] then 0
    else AliasMatches(fairs[..|fairs| - 1], tag) + Occurrences(fairs[|fairs| - 1].hashtags, tag)
  }

  /** The number of (hashtag, fair, alias) triples whose lowercased hashtag is the alias. */
  function PairMatches(fairs: seq<Fair>, hashtags: seq<string>): nat
  {
    if hashtags == [] then 0
    else PairMatches(fairs, hashtags[..|hashtags| - 1]) + AliasMatches(fairs, Lower(hashtags[|hashtags| - 1]))
  }

  lemma {:induction false} AliasHitsShape(f: Fair, aliases: seq<string>, tag: string)
    ensures |AliasHits(f, aliases, tag)| == Occurrences(aliases, tag)
    ensures forall g :: g in AliasHits(f, aliases, tag) ==> g == f
  {
    if aliases != [] {
      AliasHitsShape(f, aliases[..|aliases| - 1], tag);
    }
  }

  lemma {:induction false} TagHitsCount(fairs: seq<Fair>, tag: string)
    ensures |TagHits(fairs, tag)| == AliasMatches(fairs, tag)
  {
    if fairs != [] {
      var f := fairs[|fairs| - 1];
      TagHitsCount(fairs[..|fairs| - 1], tag);
      AliasHitsShape(f, f.hashtags, tag);
    }
  }

  lemma {:induction false} HashtagHitsCount(fairs: seq<Fair>, hashtags: seq<string>)
    ensures |HashtagHits(fairs, hashtags)| == PairMatches(fairs, hashtags)
  {
    if hashtags != [] {
      HashtagHitsCount(fairs, hashtags[..|hashtags| - 1]);
      TagHitsCount(fairs, Lower(hashtags[|hashtags| - 1]));
    }
  }

  /** Self-exclusion only removes hits; it removes none when the author owns none of them. */
  lemma {:induction false} NotAuthoredByLength(hits: seq<Fair>, author: Option<string>)
    ensures |NotAuthoredBy(hits, author)| <= |hits|
    ensures (forall g :: g in hits ==> author != Some(g.account)) ==> NotAuthoredBy(hits, author) == hits
  {
    if hits != [] {
      var init := hits[..|hits| - 1];
      assert hits == init + [hits[|hits| - 1]];
      NotAuthoredByLength(init, author);
    }
  }

  lemma {:induction false} TagHitsAppend(a: seq<Fair>, b: seq<Fair>, tag: string)
    ensures TagHits(a + b, tag) == TagHits(a, tag) + TagHits(b, tag)
  {
    if b == [] {
      assert a + b == a;
    } else {
      var b' := b[..|b| - 1];
      assert (a + b)[..|a + b| - 1] == a + b';
      TagHitsAppend(a, b', tag);
    }
  }

  /** A fair that lists tag once is hit once. */
  lemma TagHitsOfOneFair(f: Fair, tag: string)
    requires Distinct(f.hashtags) && tag in f.hashtags
    ensures TagHits([f], tag) == [f]
  {
    assert [f][..0] == [];
    OccurrencesOfDistinct(f.hashtags, tag);
    AliasHitsShape(f, f.hashtags, tag);
    var hits := AliasHits(f, f.hashtags, tag);
    assert hits[0] in hits;
  }

  lemma NoTagHits(fairs: seq<Fair>, tag: string)
    requires forall g :: g in fairs ==> tag !in g.hashtags
    ensures TagHits(fairs, tag) == []
  {
    var hits := TagHits(fairs, tag);
    if hits != [] {
      TagHitsMembers(fairs, tag, hits[0]);
    }
  }

  // How often each fair is hit: once per (hashtag, alias) pair of that fair, and once
  // per mention of its account.

  /** The number of mentions whose lower-cased screen name is account. */
  function MentionsOf(mentions: seq<string>, account: string): nat
  {
    if mentions == [] then 0
    else MentionsOf(mentions[..|mentions| - 1], account) + (if Lower(mentions[|mentions| - 1]) == account then 1 else 0)
  }

  lemma {:induction false} AliasHitsCopies(f: Fair, aliases: seq<string>, tag: string, g: Fair)
    ensures multiset(AliasHits(f, aliases, tag))[g] == if g == f then Occurrences(aliases, tag) else 0
  {
    if aliases != [] {
      AliasHitsCopies(f, aliases[..|aliases| - 1], tag, g);
    }
  }

  lemma {:induction false} TagHitsCopies(fairs: seq<Fair>, tag: string, g: Fair)
    requires multiset(fairs)[g] <= 1
    ensures multiset(TagHits(fairs, tag))[g] == if g in fairs then Occurrences(g.hashtags, tag) else 0
  {
    if fairs != [] {
      var init, f := fairs[..|fairs| - 1], fairs[|fairs| - 1];
      assert fairs == init + [f];
      assert multiset(fairs) == multiset(init) + multiset([f]);
      TagHitsCopies(init, tag, g);
      AliasHitsCopies(f, f.hashtags, tag, g);
    }
  }

  lemma AliasMatchesOfOne(g: Fair, tag: string)
    ensures AliasMatches([g], tag) == Occurrences(g.hashtags, tag)
  {
    assert [g][..0] == [];
  }

  lemma {:induction false} HashtagHitsCopies(fairs: seq<Fair>, hashtags: seq<string>, g: Fair)
    requires multiset(fairs)[g] <= 1
    ensures multiset(HashtagHits(fairs, hashtags))[g] == if g in fairs then PairMatches([g], hashtags) else 0
  {
    if hashtags != [] {
      var init, tag := hashtags[..|hashtags| - 1], Lower(hashtags[|hashtags| - 1]);
      HashtagHitsCopies(fairs, init, g);
      TagHitsCopies(fairs, tag, g);
      AliasMatchesOfOne(g, tag);
    }
  }

  lemma {:induction false} AccountHitsCopies(fairs: seq<Fair>, name: string, g: Fair)
    requires multiset(fairs)[g] <= 1
    ensures multiset(AccountHits(fairs, name))[g] == if g in fairs && g.account == name then 1 else 0
  {
    if fairs != [] {
      var init, f := fairs[..|fairs| - 1], fairs[|fairs| - 1];
      assert fairs == init + [f];
      assert multiset(fairs) == multiset(init) + multiset([f]);
      AccountHitsCopies(init, name, g);
    }
  }

  lemma {:induction false} MentionHitsCopies(fairs: seq<Fair>, mentions: seq<string>, g: Fair)
    requires multiset(fairs)[g] <= 1
    ensures multiset(MentionHits(fairs, mentions))[g] == if g in fairs then MentionsOf(mentions, g.account) else 0
  {
    if mentions != [] {
      var init, name := mentions[..|mentions| - 1], Lower(mentions[|mentions| - 1]);
      MentionHitsCopies(fairs, init, g);
      AccountHitsCopies(fairs, name, g);
    }
  }

  lemma {:induction false} NotAuthoredByCopies(hits: seq<Fair>, author: Option<string>, g: Fair)
    ensures multiset(NotAuthoredBy(hits, author))[g] == if author == Some(g.account) then 0 else multiset(hits)[g]
  {
    if hits != [] {
      var init := hits[..|hits| - 1];
      assert hits == init + [hits[|hits| - 1]];
      NotAuthoredByCopies(init, author, g);
    }
  }

  /** A table without repeated names lists each of its fairs once. */
  lemma {:induction false} DistinctFairsListOnce(fairs: seq<Fair>, g: Fair)
    requires DistinctFairs(fairs) && g in fairs
    ensures multiset(fairs)[g] == 1
  {
    var init, f := fairs[..|fairs| - 1], fairs[|fairs| - 1];
    assert fairs == init + [f];
    assert DistinctFairs(init);
    if f != g {
      DistinctFairsListOnce(init, g);
    }
  }

  /** One (name, [1, sentiment]) pair per match. */
  function Emit(hits: seq<Fair>, sentiment: int): seq<Emission>
  {
    seq(|hits|, k requires 0 <= k < |hits| => Emission(hits[k].name, Counts(1, sentiment)))
  }

  /** The sentiment of a text that is present; never used for an absent one. */
  function ScoreOf(text: Option<string>): int
  {
    if text.Some? then TextScore(text.value) else 0
  }

  /** What map does with one parse result, against a given fair table. */
  function Classify(fairs: seq<Fair>, parsed: Option<Tweet>): MapOutcome
  {
    match parsed
    case None => Emitted([])
    case Some(tweet) =>
      match tweet.entities
      case None => Emitted([])
      case Some(entities) =>
        var hashtagPass := HashtagPassOutcome(fairs, entities.hashtags, tweet.text, tweet.author);
        if hashtagPass.Crashed? || HashtagHits(fairs, entities.hashtags) != [] then hashtagPass
        else MentionPassOutcome(fairs, entities.mentions, tweet.text)
  }

  // ---------------------------------------------------------------------------
  // map
  // ---------------------------------------------------------------------------

  /**
   * Whether a pass that finds the hashtag matches hits throws: the first match
   * dereferences the author, and the first match not authored by the fair
   * dereferences the text.
   */
  predicate CrashesOn(hits: seq<Fair>, author: Option<string>, text: Option<string>)
  {
    (hits != [] && author.None?) || (NotAuthoredBy(hits, author) != [] && text.None?)
  }

  /** The outcome of the hashtag pass alone: its writes, or Crashed. */
  function HashtagPassOutcome(fairs: seq<Fair>, hashtags: seq<string>, text: Option<string>, author: Option<string>): MapOutcome
  {
    var hits := HashtagHits(fairs, hashtags);
    if CrashesOn(hits, author, text) then Crashed
    else Emitted(Emit(NotAuthoredBy(hits, author), ScoreOf(text)))
  }

  /** The outcome of the mention pass alone: its writes, or Crashed. */
  function MentionPassOutcome(fairs: seq<Fair>, mentions: seq<string>, text: Option<string>): MapOutcome
  {
    var mentioned := MentionHits(fairs, mentions);
    if mentioned != [] && text.None? then Crashed
    else Emitted(Emit(mentioned, ScoreOf(text)))
  }

  /**
   * map: parse result in, context writes out. The JSON parser is abstracted into
   * parsed, which is None when parsing threw, the value was not an object, or it
   * was JSON null.
   */
  method Map(parsed: Option<Tweet>) returns (outcome: MapOutcome)
    ensures outcome == Classify(FairTable, parsed)
  {
    if parsed.None? {
      return Emitted([]);
    }
    var tweet := parsed.value;
    var fairs := FairTable;
    if tweet.entities.None? {
      return Emitted([]);
    }
    var hashtagsTweet := tweet.entities.value.hashtags;
    var mentionsTweet := tweet.entities.value.mentions;
    var hashtagFound;
    outcome, hashtagFound := HashtagPass(fairs, hashtagsTweet, tweet.text, tweet.author);
    if outcome.Emitted? && !hashtagFound {
      outcome := MentionPass(fairs, mentionsTweet, tweet.text);
    }
  }

  /**
   * What the hashtag pass has established after finding the matches hits: the flag
   * records whether there was any, none needed a missing author or text, and the
   * writes so far are those of the matches not authored by the fair.
   */
  predicate HashtagProgress(hits: seq<Fair>, hashtagFound: bool, written: seq<Emission>, author: Option<string>, text: Option<string>)
  {
    && hashtagFound == (hits != [])
    && !CrashesOn(hits, author, text)
    && written == Emit(NotAuthoredBy(hits, author), ScoreOf(text))
  }

  /** A crash caused by some matches is also caused by any matches that include them. */
  lemma CrashPersists(hits: seq<Fair>, more: seq<Fair>, author: Option<string>, text: Option<string>)
    requires CrashesOn(hits, author, text)
    requires forall g :: g in hits ==> g in more
    ensures CrashesOn(more, author, text)
  {
    if hits != [] && author.None? {
      assert hits[0] in more;
    } else {
      var counted := NotAuthoredBy(hits, author);
      NotAuthoredByMembers(hits, author, counted[0]);
      NotAuthoredByMembers(more, author, counted[0]);
    }
  }

  lemma AppendHits(hits: seq<Fair>, more: seq<Fair>, author: Option<string>, s: int)
    ensures NotAuthoredBy(hits + more, author) == NotAuthoredBy(hits, author) + NotAuthoredBy(more, author)
    ensures Emit(hits + more, s) == Emit(hits, s) + Emit(more, s)
    decreases |more|
  {
    if more != [] {
      var init := more[..|more| - 1];
      assert (hits + more)[..|hits + more| - 1] == hits + init;
      AppendHits(hits, init, author, s);
    } else {
      assert hits + more == hits;
    }
  }

  /** One more match keeps the progress, given that it needed nothing missing. */
  lemma ProgressStep(hits: seq<Fair>, f: Fair, found: bool, written: seq<Emission>, written': seq<Emission>, author: Option<string>, text: Option<string>)
    requires HashtagProgress(hits, found, written, author, text)
    requires author.Some?
    requires author.value != f.account ==> text.Some? && written' == written + [Emission(f.name, Counts(1, ScoreOf(text)))]
    requires author.value == f.account ==> written' == written
    ensures HashtagProgress(hits + [f], true, written', author, text)
  {
    AppendHits(hits, [f], author, ScoreOf(text));
    assert [f][..0] == [];
  }

  /**
   * The triply nested loop over tweet hashtags, fairs and aliases. It reports whether
   * any alias matched (the record-level hashtagFound flag), self-excluded matches
   * included.
   */
  method HashtagPass(fairs: seq<Fair>, hashtagsTweet: seq<string>, textTweet: Option<string>, author: Option<string>)
    returns (outcome: MapOutcome, hashtagFound: bool)
    ensures hashtagFound == (HashtagHits(fairs, hashtagsTweet) != [])
    ensures outcome == HashtagPassOutcome(fairs, hashtagsTweet, textTweet, author)
  {
    var written: seq<Emission> := [];
    hashtagFound := false;
    ghost var hits: seq<Fair> := [];
    for a := 0 to |hashtagsTweet|
      invariant hits == HashtagHits(fairs, hashtagsTweet[..a])
      invariant HashtagProgress(hits, hashtagFound, written, author, textTweet)
    {
      var tag := Lower(hashtagsTweet[a]);
      var crashed;
      crashed, hashtagFound, written := MatchFairs(fairs, tag, textTweet, author, hits, hashtagFound, written);
      if crashed {
        forall g | g in TagHits(fairs, tag) ensures g in HashtagHits(fairs, hashtagsTweet) {
          TagHitsMembers(fairs, tag, g);
          HashtagHitsMembers(fairs, hashtagsTweet, g);
          assert hashtagsTweet[a] in hashtagsTweet;
        }
        CrashPersists(TagHits(fairs, tag), HashtagHits(fairs, hashtagsTweet), author, textTweet);
        return Crashed, HashtagHits(fairs, hashtagsTweet) != [];
      }
      assert hashtagsTweet[..a + 1][..a] == hashtagsTweet[..a];
      hits := hits + TagHits(fairs, tag);
    }
    assert hashtagsTweet[..|hashtagsTweet|] == hashtagsTweet;
    outcome := Emitted(written);
  }

  /** The middle loop: one lower-cased tweet hashtag against every fair. */
  method MatchFairs(fairs: seq<Fair>, tag: string, textTweet: Option<string>, author: Option<string>,
                    ghost hits: seq<Fair>, hashtagFound: bool, written: seq<Emission>)
    returns (crashed: bool, hashtagFound': bool, written': seq<Emission>)
    requires HashtagProgress(hits, hashtagFound, written, author, textTweet)
    ensures crashed ==> CrashesOn(TagHits(fairs, tag), author, textTweet)
    ensures !crashed ==> HashtagProgress(hits + TagHits(fairs, tag), hashtagFound', written', author, textTweet)
  {
    hashtagFound', written' := hashtagFound, written;
    assert hits + TagHits(fairs[..0], tag) == hits;
    for i := 0 to |fairs|
      invariant HashtagProgress(hits + TagHits(fairs[..i], tag), hashtagFound', written', author, textTweet)
    {
      ghost var before := hits + TagHits(fairs[..i], tag);
      crashed, hashtagFound', written' := MatchAliases(fairs[i], tag, textTweet, author, before, hashtagFound', written');
      if crashed {
        FairCrashPersists(fairs, i, tag, author, textTweet);
        return;
      }
      TagHitsStep(fairs, i, tag);
      assert hits + TagHits(fairs[..i + 1], tag) == before + AliasHits(fairs[i], fairs[i].hashtags, tag);
    }
    assert fairs[..|fairs|] == fairs;
    crashed := false;
  }

  lemma TagHitsStep(fairs: seq<Fair>, i: nat, tag: string)
    requires i < |fairs|
    ensures TagHits(fairs[..i + 1], tag) == TagHits(fairs[..i], tag) + AliasHits(fairs[i], fairs[i].hashtags, tag)
  {
    assert fairs[..i + 1][..i] == fairs[..i];
  }

  lemma AliasHitsStep(f: Fair, aliases: seq<string>, j: nat, tag: string)
    requires j < |aliases|
    ensures AliasHits(f, aliases[..j + 1], tag) == AliasHits(f, aliases[..j], tag) + (if aliases[j] == tag then [f] else [])
  {
    assert aliases[..j + 1][..j] == aliases[..j];
  }

  lemma AliasCrashPersists(f: Fair, aliases: seq<string>, j: nat, tag: string, author: Option<string>, text: Option<string>)
    requires j < |aliases| && aliases[j] == tag && CrashesOn([f], author, text)
    ensures CrashesOn(AliasHits(f, aliases, tag), author, text)
  {
    AliasHitsMembers(f, aliases, tag, f);
    CrashPersists([f], AliasHits(f, aliases, tag), author, text);
  }

  /** A crash on the hits of one fair of the table is a crash on the hits of the whole table. */
  lemma FairCrashPersists(fairs: seq<Fair>, i: nat, tag: string, author: Option<string>, text: Option<string>)
    requires i < |fairs| && CrashesOn(AliasHits(fairs[i], fairs[i].hashtags, tag), author, text)
    ensures CrashesOn(TagHits(fairs, tag), author, text)
  {
    forall g | g in AliasHits(fairs[i], fairs[i].hashtags, tag) ensures g in TagHits(fairs, tag) {
      AliasHitsMembers(fairs[i], fairs[i].hashtags, tag, g);
      TagHitsMembers(fairs, tag, g);
    }
    CrashPersists(AliasHits(fairs[i], fairs[i].hashtags, tag), TagHits(fairs, tag), author, text);
  }

  /** The innermost loop: one lower-cased tweet hashtag against every alias of one fair. */
  method MatchAliases(f: Fair, tag: string, textTweet: Option<string>, author: Option<string>,
                      ghost hits: seq<Fair>, hashtagFound: bool, written: seq<Emission>)
    returns (crashed: bool, hashtagFound': bool, written': seq<Emission>)
    requires HashtagProgress(hits, hashtagFound, written, author, textTweet)
    ensures crashed ==> CrashesOn(AliasHits(f, f.hashtags, tag), author, textTweet)
    ensures !crashed ==> HashtagProgress(hits + AliasHits(f, f.hashtags, tag), hashtagFound', written', author, textTweet)
  {
    hashtagFound', written' := hashtagFound, written;
    var aliases := f.hashtags;
    assert hits + AliasHits(f, aliases[..0], tag) == hits;
    for j := 0 to |aliases|
      invariant HashtagProgress(hits + AliasHits(f, aliases[..j], tag), hashtagFound', written', author, textTweet)
    {
      ghost var before := hits + AliasHits(f, aliases[..j], tag);
      crashed, hashtagFound', written' := MatchAlias(f, aliases[j], tag, textTweet, author, before, hashtagFound', written');
      if crashed {
        AliasCrashPersists(f, aliases, j, tag, author, textTweet);
        return;
      }
      AliasHitsStep(f, aliases, j, tag);
      assert hits + AliasHits(f, aliases[..j + 1], tag) == before + (if aliases[j] == tag then [f] else []);
    }
    assert aliases[..|aliases|] == aliases;
    crashed := false;
  }

  /** The body of the innermost loop: one alias of a fair compared with the hashtag. */
  method MatchAlias(f: Fair, alias: string, tag: string, textTweet: Option<string>, author: Option<string>,
                    ghost hits: seq<Fair>, hashtagFound: bool, written: seq<Emission>)
    returns (crashed: bool, hashtagFound': bool, written': seq<Emission>)
    requires HashtagProgress(hits, hashtagFound, written, author, textTweet)
    ensures crashed ==> alias == tag && CrashesOn([f], author, textTweet)
    ensures !crashed ==> HashtagProgress(hits + (if alias == tag then [f] else []), hashtagFound', written', author, textTweet)
  {
    if alias == tag {
      hashtagFound' := true;
      crashed, written' := WriteHit(f, textTweet, author, hits, hashtagFound, written);
    } else {
      crashed, hashtagFound', written' := false, hashtagFound, written;
      assert hits + [] == hits;
    }
  }

  /**
   * The body of the innermost loop once an alias equals the hashtag: the user is read,
   * and unless it is the fair's own account the text is scored and the fair written.
   */
  method WriteHit(f: Fair, textTweet: Option<string>, author: Option<string>,
                  ghost hits: seq<Fair>, ghost hashtagFound: bool, written: seq<Emission>)
    returns (crashed: bool, written': seq<Emission>)
    requires HashtagProgress(hits, hashtagFound, written, author, textTweet)
    ensures crashed ==> CrashesOn([f], author, textTweet)
    ensures !crashed ==> HashtagProgress(hits + [f], true, written', author, textTweet)
  {
    written' := written;
    if author.None? {
      return true, written';
    }
    var accountName := author.value;
    var accountFound := accountName == f.account;
    if !accountFound {
      if textTweet.None? {
        assert [f][..0] == [];
        assert NotAuthoredBy([f], author) == [f];
        return true, written';
      }
      var sentiment := GetSentiment(textTweet.value);
      written' := written' + [Emission(f.name, Counts(1, sentiment))];
    }
    ProgressStep(hits, f, hashtagFound, written, written', author, textTweet);
    crashed := false;
  }

  /** The nested loop over mentions and fairs that runs when no alias matched. */
  method MentionPass(fairs: seq<Fair>, mentionsTweet: seq<string>, textTweet: Option<string>)
    returns (outcome: MapOutcome)
    ensures outcome == MentionPassOutcome(fairs, mentionsTweet, textTweet)
  {
    var written: seq<Emission> := [];
    ghost var mentioned: seq<Fair> := [];
    for m := 0 to |mentionsTweet|
      invariant mentioned == MentionHits(fairs, mentionsTweet[..m])
      invariant mentioned != [] ==> textTweet.Some?
      invariant written == Emit(mentioned, ScoreOf(textTweet))
    {
      var screenName := Lower(mentionsTweet[m]);
      var crashed;
      crashed, written := MatchAccounts(fairs, screenName, textTweet, mentioned, written);
      if crashed {
        MentionCrashPersists(fairs, mentionsTweet, m);
        return Crashed;
      }
      mentioned := mentioned + AccountHits(fairs, screenName);
      assert mentionsTweet[..m + 1][..m] == mentionsTweet[..m];
    }
    assert mentionsTweet[..|mentionsTweet|] == mentionsTweet;
    outcome := Emitted(written);
  }

  /** The inner loop of the mention pass: one lower-cased screen name against every account. */
  method MatchAccounts(fairs: seq<Fair>, screenName: string, textTweet: Option<string>,
                       ghost mentioned: seq<Fair>, written: seq<Emission>)
    returns (crashed: bool, written': seq<Emission>)
    requires mentioned != [] ==> textTweet.Some?
    requires written == Emit(mentioned, ScoreOf(textTweet))
    ensures crashed ==> AccountHits(fairs, screenName) != [] && textTweet.None?
    ensures !crashed ==> written' == Emit(mentioned + AccountHits(fairs, screenName), ScoreOf(textTweet))
    ensures !crashed ==> (mentioned + AccountHits(fairs, screenName) != [] ==> textTweet.Some?)
  {
    written' := written;
    assert mentioned + AccountHits(fairs[..0], screenName) == mentioned by {
      assert fairs[..0] == [];
    }
    for i := 0 to |fairs|
      invariant mentioned + AccountHits(fairs[..i], screenName) != [] ==> textTweet.Some?
      invariant written' == Emit(mentioned + AccountHits(fairs[..i], screenName), ScoreOf(textTweet))
    {
      assert fairs[..i + 1][..i] == fairs[..i];
      ghost var before := mentioned + AccountHits(fairs[..i], screenName);
      if fairs[i].account == screenName {
        AccountHitsMembers(fairs, screenName, fairs[i]);
        if textTweet.None? {
          return true, written';
        }
        var sentiment := GetSentiment(textTweet.value);
        AppendHits(before, [fairs[i]], None, ScoreOf(textTweet));
        assert [fairs[i]][..0] == [];
        written' := written' + [Emission(fairs[i].name, Counts(1, sentiment))];
        assert mentioned + AccountHits(fairs[..i + 1], screenName) == before + [fairs[i]];
      } else {
        assert mentioned + AccountHits(fairs[..i + 1], screenName) == before;
      }
    }
    assert fairs[..|fairs|] == fairs;
    crashed := false;
  }

  lemma MentionCrashPersists(fairs: seq<Fair>, mentions: seq<string>, m: nat)
    requires m < |mentions| && AccountHits(fairs, Lower(mentions[m])) != []
    ensures MentionHits(fairs, mentions) != []
  {
    var g := AccountHits(fairs, Lower(mentions[m]))[0];
    AccountHitsMembers(fairs, Lower(mentions[m]), g);
    assert mentions[m] in mentions;
    MentionHitsMembers(fairs, mentions, g);
  }

  // ---------------------------------------------------------------------------
  // What map promises
  // ---------------------------------------------------------------------------

  lemma EmitMembers(hits: seq<Fair>, sentiment: int, e: Emission)
    ensures e in Emit(hits, sentiment) <==> exists g :: g in hits && e == Emission(g.name, Counts(1, sentiment))
  {
    if e in Emit(hits, sentiment) {
      var k :| 0 <= k < |hits| && Emit(hits, sentiment)[k] == e;
      assert hits[k] in hits;
    }
    if exists g :: g in hits && e == Emission(g.name, Counts(1, sentiment)) {
      var g :| g in hits && e == Emission(g.name, Counts(1, sentiment));
      var k :| 0 <= k < |hits| && hits[k] == g;
      assert Emit(hits, sentiment)[k] == e;
    }
  }

  lemma DistinctNames(fairs: seq<Fair>, f: Fair, g: Fair)
    requires DistinctFairs(fairs) && f in fairs && g in fairs
    requires f.name == g.name || f.account == g.account
    ensures f == g
  {
    var i :| 0 <= i < |fairs| && fairs[i] == f;
    var j :| 0 <= j < |fairs| && fairs[j] == g;
    assert !(i < j) && !(j < i);
  }

  /** A tweet that did not parse, or has no "entities", gives no writes. */
  lemma MalformedTweetEmitsNothing(fairs: seq<Fair>, parsed: Option<Tweet>)
    requires parsed.None? || parsed.value.entities.None?
    ensures Classify(fairs, parsed) == Emitted([])
  {
  }

  /**
   * Every write has count 1, a fair's name as key, and the tweet's sentiment; since
   * the sentiment depends on the text only, it is the same for all writes of a tweet.
   */
  lemma EmissionsAreWellFormed(fairs: seq<Fair>, parsed: Option<Tweet>, e: Emission)
    requires Classify(fairs, parsed).Emitted? && e in Classify(fairs, parsed).writes
    ensures e.value.count == 1 && e.key in Names(fairs)
    ensures parsed.Some? && parsed.value.text.Some? && e.value.sentiment == TextScore(parsed.value.text.value)
  {
    var tweet := parsed.value;
    var entities := tweet.entities.value;
    var hits := HashtagHits(fairs, entities.hashtags);
    var source := if hits != [] then NotAuthoredBy(hits, tweet.author) else MentionHits(fairs, entities.mentions);
    EmitMembers(source, ScoreOf(tweet.text), e);
    var g :| g in source && e == Emission(g.name, Counts(1, ScoreOf(tweet.text)));
    if hits != [] {
      NotAuthoredByMembers(hits, tweet.author, g);
      HashtagHitsMembers(fairs, entities.hashtags, g);
    } else {
      MentionHitsMembers(fairs, entities.mentions, g);
    }
    var i :| 0 <= i < |fairs| && fairs[i] == g;
    assert Names(fairs)[i] == g.name;
  }

  /**
   * Self-exclusion: a tweet by a fair's own account that carries one of that fair's
   * hashtags writes nothing for that fair, and the mention pass does not run.
   */
  lemma OwnAccountIsExcluded(fairs: seq<Fair>, tweet: Tweet, f: Fair, e: Emission)
    requires DistinctFairs(fairs) && f in fairs
    requires tweet.entities.Some? && tweet.author == Some(f.account)
    requires exists h :: h in tweet.entities.value.hashtags && Lower(h) in f.hashtags
    requires Classify(fairs, Some(tweet)).Emitted? && e in Classify(fairs, Some(tweet)).writes
    ensures e.key != f.name
  {
    var hts := tweet.entities.value.hashtags;
    var hits := HashtagHits(fairs, hts);
    HashtagHitsMembers(fairs, hts, f);
    var counted := NotAuthoredBy(hits, tweet.author);
    EmitMembers(counted, ScoreOf(tweet.text), e);
    var g :| g in counted && e == Emission(g.name, Counts(1, ScoreOf(tweet.text)));
    NotAuthoredByMembers(hits, tweet.author, g);
    HashtagHitsMembers(fairs, hts, g);
    if g.name == f.name {
      DistinctNames(fairs, f, g);
    }
  }

  /**
   * The hashtagFound gate: once any alias of any fair matched, self-excluded or not,
   * the mentions make no difference to what map does.
   */
  lemma MentionsIgnoredAfterHashtagMatch(fairs: seq<Fair>, tweet: Tweet, mentions: seq<string>, f: Fair, h: string)
    requires tweet.entities.Some?
    requires f in fairs && h in tweet.entities.value.hashtags && Lower(h) in f.hashtags
    ensures Classify(fairs, Some(tweet)) ==
            Classify(fairs, Some(tweet.(entities := Some(tweet.entities.value.(mentions := mentions)))))
  {
    HashtagHitsMembers(fairs, tweet.entities.value.hashtags, f);
  }

  /** With a user and a text, a tweet whose hashtags hit is decided by the hashtag pass alone. */
  lemma HashtagPassDecides(fairs: seq<Fair>, tweet: Tweet)
    requires tweet.entities.Some? && tweet.author.Some? && tweet.text.Some?
    requires HashtagHits(fairs, tweet.entities.value.hashtags) != []
    ensures Classify(fairs, Some(tweet)) ==
            Emitted(Emit(NotAuthoredBy(HashtagHits(fairs, tweet.entities.value.hashtags), tweet.author), TextScore(tweet.text.value)))
  {
  }

  /** With a text, a tweet whose hashtags miss is decided by the mention pass. */
  lemma MentionPassDecides(fairs: seq<Fair>, tweet: Tweet)
    requires tweet.entities.Some? && tweet.text.Some?
    requires HashtagHits(fairs, tweet.entities.value.hashtags) == []
    ensures Classify(fairs, Some(tweet)) ==
            Emitted(Emit(MentionHits(fairs, tweet.entities.value.mentions), TextScore(tweet.text.value)))
  {
  }

  /**
   * The hashtag pass writes exactly once per matching fair it finds, for every fair
   * with an alias equal to a lower-cased hashtag whose account is not the author.
   */
  lemma HashtagEmissions(fairs: seq<Fair>, tweet: Tweet, g: Fair)
    requires DistinctFairs(fairs) && g in fairs
    requires tweet.entities.Some? && tweet.author.Some? && tweet.text.Some?
    requires HashtagHits(fairs, tweet.entities.value.hashtags) != []
    ensures Classify(fairs, Some(tweet)).Emitted?
    ensures Emission(g.name, Counts(1, TextScore(tweet.text.value))) in Classify(fairs, Some(tweet)).writes
        <==> (exists h :: h in tweet.entities.value.hashtags && Lower(h) in g.hashtags) && tweet.author.value != g.account
  {
    HashtagPassDecides(fairs, tweet);
    var hts := tweet.entities.value.hashtags;
    var hits := HashtagHits(fairs, hts);
    var counted := NotAuthoredBy(hits, tweet.author);
    var s := TextScore(tweet.text.value);
    var e := Emission(g.name, Counts(1, s));
    EmitMembers(counted, s, e);
    HashtagHitsMembers(fairs, hts, g);
    NotAuthoredByMembers(hits, tweet.author, g);
    if e in Emit(counted, s) {
      var g' :| g' in counted && e == Emission(g'.name, Counts(1, s));
      NotAuthoredByMembers(hits, tweet.author, g');
      HashtagHitsMembers(fairs, hts, g');
      DistinctNames(fairs, g, g');
    }
  }

  /**
   * The mention pass: when no alias matched, map writes for exactly the fairs whose
   * account equals a lower-cased mention, the author's own fair included.
   */
  lemma MentionEmissions(fairs: seq<Fair>, tweet: Tweet, g: Fair)
    requires DistinctFairs(fairs) && g in fairs
    requires tweet.entities.Some? && tweet.text.Some?
    requires HashtagHits(fairs, tweet.entities.value.hashtags) == []
    ensures Classify(fairs, Some(tweet)).Emitted?
    ensures Emission(g.name, Counts(1, TextScore(tweet.text.value))) in Classify(fairs, Some(tweet)).writes
        <==> exists m :: m in tweet.entities.value.mentions && Lower(m) == g.account
  {
    MentionPassDecides(fairs, tweet);
    var ms := tweet.entities.value.mentions;
    var mentioned := MentionHits(fairs, ms);
    var s := TextScore(tweet.text.value);
    var e := Emission(g.name, Counts(1, s));
    EmitMembers(mentioned, s, e);
    MentionHitsMembers(fairs, ms, g);
    if e in Emit(mentioned, s) {
      var g' :| g' in mentioned && e == Emission(g'.name, Counts(1, s));
      MentionHitsMembers(fairs, ms, g');
      DistinctNames(fairs, g, g');
    }
  }

  /** No hashtag matches exactly when no lower-cased hashtag is an alias of any fair. */
  lemma NoHashtagHits(fairs: seq<Fair>, hashtags: seq<string>)
    ensures HashtagHits(fairs, hashtags) == [] <==> forall g, h :: g in fairs && h in hashtags ==> Lower(h) !in g.hashtags
  {
    var hits := HashtagHits(fairs, hashtags);
    if hits != [] {
      HashtagHitsMembers(fairs, hashtags, hits[0]);
    }
    forall g, h | g in fairs && h in hashtags && Lower(h) in g.hashtags ensures hits != [] {
      HashtagHitsMembers(fairs, hashtags, g);
    }
  }

  /**
   * Matching is case-insensitive in the hashtag: any case variant of an alias of the
   * table counts, because the table's aliases are lower case.
   */
  lemma CaseVariantOfAliasMatches(tweet: Tweet, k: nat, alias: string, h: string)
    requires k < |FairTable| && alias in FairTable[k].hashtags
    requires tweet.entities.Some? && h in tweet.entities.value.hashtags && Lower(h) == Lower(alias)
    requires tweet.author.Some? && tweet.author.value != FairTable[k].account && tweet.text.Some?
    ensures Classify(FairTable, Some(tweet)).Emitted?
    ensures Emission(FairTable[k].name, Counts(1, TextScore(tweet.text.value))) in Classify(FairTable, Some(tweet)).writes
  {
    FairTableIsWellFormed();
    var j :| 0 <= j < |FairTable[k].hashtags| && FairTable[k].hashtags[j] == alias;
    LowerFixesLowercase(alias);
    HashtagHitsMembers(FairTable, tweet.entities.value.hashtags, FairTable[k]);
    HashtagEmissions(FairTable, tweet, FairTable[k]);
  }

  /** A null user is only dereferenced on a hashtag match, and then map throws. */
  lemma NullUserCrashesOnHashtagMatch(fairs: seq<Fair>, tweet: Tweet)
    requires tweet.entities.Some? && tweet.author.None?
    ensures Classify(fairs, Some(tweet)) == Crashed <==>
            HashtagHits(fairs, tweet.entities.value.hashtags) != [] ||
            (MentionHits(fairs, tweet.entities.value.mentions) != [] && tweet.text.None?)
  {
  }

  /**
   * At most one write per (hashtag, alias) pair that matches; exactly one per pair
   * when the author owns none of the fairs, so a fair tagged twice is counted twice.
   */
  lemma HashtagWriteCount(fairs: seq<Fair>, tweet: Tweet)
    requires tweet.entities.Some? && tweet.author.Some? && tweet.text.Some?
    requires HashtagHits(fairs, tweet.entities.value.hashtags) != []
    ensures Classify(fairs, Some(tweet)).Emitted?
    ensures |Classify(fairs, Some(tweet)).writes| <= PairMatches(fairs, tweet.entities.value.hashtags)
    ensures (forall g :: g in fairs ==> tweet.author.value != g.account) ==>
            |Classify(fairs, Some(tweet)).writes| == PairMatches(fairs, tweet.entities.value.hashtags)
  {
    var hts := tweet.entities.value.hashtags;
    var hits := HashtagHits(fairs, hts);
    HashtagHitsCount(fairs, hts);
    NotAuthoredByLength(hits, tweet.author);
    if forall g :: g in fairs ==> tweet.author.value != g.account {
      forall g | g in hits ensures tweet.author != Some(g.account) {
        HashtagHitsMembers(fairs, hts, g);
      }
    }
  }
}
