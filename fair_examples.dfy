/**
 * Worked tweets against the literal five-fair table: the matching rules of map
 * applied to concrete hashtags, mentions and authors.
 */
module FairExamples {
  import opened Wrappers
  import opened Ascii
  import opened Fairs
  import opened Sentiment
  import opened FairMapper
  import opened FairReducer

  lemma OtherFairsLackTongTongTags(tag: string)
    requires tag == "ttf11" || tag == "ttf12"
    ensures TagHits(FairTable[..3], tag) == [] && TagHits(FairTable[4..], tag) == []
  {
    NoTagHits(FairTable[..3], tag);
    NoTagHits(FairTable[4..], tag);
  }

  lemma TongTongListsTag(tag: string)
    requires tag == "ttf11" || tag == "ttf12"
    ensures TagHits([FairTable[3]], tag) == [FairTable[3]]
  {
    var g := FairTable[3];
    assert Distinct(g.hashtags) && tag in g.hashtags;
    TagHitsOfOneFair(g, tag);
  }

  /** Both #ttf11 and #ttf12 are aliases of the Tong Tong Fair alone. */
  lemma TongTongTags(tag: string)
    requires tag == "ttf11" || tag == "ttf12"
    ensures TagHits(FairTable, tag) == [FairTable[3]]
  {
    var f := FairTable;
    var front, back := f[..3], f[4..];
    assert f == front + [f[3]] + back;
    TagHitsAppend(front + [f[3]], back, tag);
    TagHitsAppend(front, [f[3]], tag);
    OtherFairsLackTongTongTags(tag);
    TongTongListsTag(tag);
  }

  lemma LowerOfTongTongTags()
    ensures Lower("ttf11") == "ttf11" && Lower("TTF12") == "ttf12"
  {
    LowerFixesLowercase("ttf11");
  }

  lemma OneTagHits(fairs: seq<Fair>, h: string, g: Fair)
    requires TagHits(fairs, Lower(h)) == [g]
    ensures HashtagHits(fairs, [h]) == [g]
  {
    assert [h][..0] == [];
  }

  lemma TwoTagHits(fairs: seq<Fair>, h1: string, h2: string, g: Fair)
    requires TagHits(fairs, Lower(h1)) == [g] && TagHits(fairs, Lower(h2)) == [g]
    ensures HashtagHits(fairs, [h1, h2]) == [g, g]
  {
    var hts := [h1, h2];
    assert hts[..1] == [h1] && hts[..1][..0] == [];
    assert HashtagHits(fairs, [h1]) == HashtagHits(fairs, []) + TagHits(fairs, Lower(h1));
    assert HashtagHits(fairs, hts) == HashtagHits(fairs, [h1]) + TagHits(fairs, Lower(h2));
  }

  lemma TwiceNotAuthored(g: Fair, author: Option<string>)
    requires author != Some(g.account)
    ensures NotAuthoredBy([g, g], author) == [g, g]
  {
    assert [g, g][..1] == [g] && [g][..0] == [];
    assert NotAuthoredBy([g], author) == NotAuthoredBy([], author) + [g];
    assert NotAuthoredBy([g, g], author) == NotAuthoredBy([g], author) + [g];
  }

  lemma TwoHitsWriteTwice(fairs: seq<Fair>, hashtags: seq<string>, g: Fair, text: string, author: string)
    requires HashtagHits(fairs, hashtags) == [g, g]
    requires author != g.account
    ensures var e := Emission(g.name, Counts(1, TextScore(text)));
            Classify(fairs, Some(Tweet(Some(Entities(hashtags, [])), Some(text), Some(author))))
              == Emitted([e, e])
  {
    TwiceNotAuthored(g, Some(author));
    var e := Emission(g.name, Counts(1, TextScore(text)));
    assert Emit([g, g], TextScore(text)) == [e, e];
    assert !CrashesOn([g, g], Some(author), Some(text));
    assert HashtagPassOutcome(fairs, hashtags, Some(text), Some(author)) == Emitted([e, e]);
  }

  /** "#ttf11 #TTF12" from a visitor writes the Tong Tong Fair twice. */
  lemma SameFairTaggedTwiceWritesTwice(text: string)
    ensures var e := Emission("Tong Tong Fair", Counts(1, TextScore(text)));
            Classify(FairTable, Some(Tweet(Some(Entities(["ttf11", "TTF12"], [])), Some(text), Some("visitor"))))
              == Emitted([e, e])
  {
    var g := FairTable[3];
    assert g.name == "Tong Tong Fair" && g.account != "visitor";
    LowerOfTongTongTags();
    TongTongTags("ttf11");
    TongTongTags("ttf12");
    TwoTagHits(FairTable, "ttf11", "TTF12", g);
    TwoHitsWriteTwice(FairTable, ["ttf11", "TTF12"], g, text, "visitor");
  }

  lemma OwnTagWritesNothing(fairs: seq<Fair>, hashtags: seq<string>, mentions: seq<string>, g: Fair, text: Option<string>)
    requires HashtagHits(fairs, hashtags) == [g]
    ensures Classify(fairs, Some(Tweet(Some(Entities(hashtags, mentions)), text, Some(g.account)))) == Emitted([])
  {
    assert [g][..0] == [];
    assert NotAuthoredBy([g], Some(g.account)) == [];
  }

  /**
   * The fair's own account tagging #ttf11 and mentioning the Huishoudbeurs writes
   * nothing: the hashtag match is excluded, yet it still closes the mention pass,
   * and the text is never read.
   */
  lemma OwnHashtagSilencesMentions(text: Option<string>)
    ensures Classify(FairTable, Some(Tweet(Some(Entities(["ttf11"], ["huishoudbeurs"])), text, Some("tongtongfair"))))
            == Emitted([])
  {
    var g := FairTable[3];
    assert g.account == "tongtongfair";
    LowerOfTongTongTags();
    TongTongTags("ttf11");
    OneTagHits(FairTable, "ttf11", g);
    OwnTagWritesNothing(FairTable, ["ttf11"], ["huishoudbeurs"], g, text);
  }

  lemma OneHitWritesOnce(fairs: seq<Fair>, hashtags: seq<string>, g: Fair, text: string, author: string)
    requires HashtagHits(fairs, hashtags) == [g]
    requires author != g.account
    ensures Classify(fairs, Some(Tweet(Some(Entities(hashtags, [])), Some(text), Some(author))))
            == Emitted([Emission(g.name, Counts(1, TextScore(text)))])
  {
    assert [g][..0] == [];
    assert NotAuthoredBy([g], Some(author)) == [g];
    assert Emit([g], TextScore(text)) == [Emission(g.name, Counts(1, TextScore(text)))];
  }

  /** The author is compared exactly: "TongTongFair" is not the account "tongtongfair". */
  lemma AuthorMatchIsCaseSensitive(text: string)
    ensures Classify(FairTable, Some(Tweet(Some(Entities(["ttf11"], [])), Some(text), Some("TongTongFair"))))
            == Emitted([Emission("Tong Tong Fair", Counts(1, TextScore(text)))])
  {
    var g := FairTable[3];
    assert g.name == "Tong Tong Fair" && g.account == "tongtongfair";
    LowerOfTongTongTags();
    TongTongTags("ttf11");
    OneTagHits(FairTable, "ttf11", g);
    OneHitWritesOnce(FairTable, ["ttf11"], g, text, "TongTongFair");
  }

  // ---------------------------------------------------------------------------
  // Two tweets about the Huishoudbeurs, from map to the reducer's total
  // ---------------------------------------------------------------------------

  lemma OtherFairsLackHuishoudbeursTag(tag: string)
    requires tag == "huishoudbeurs"
    ensures TagHits(FairTable[1..], tag) == []
  {
    NoTagHits(FairTable[1..], tag);
  }

  lemma HuishoudbeursTag(h: string)
    requires Lower(h) == "huishoudbeurs"
    ensures HashtagHits(FairTable, [h]) == [FairTable[0]]
  {
    var f := FairTable;
    var tag := Lower(h);
    var front, back := [f[0]], f[1..];
    assert f == front + back;
    TagHitsAppend(front, back, tag);
    assert Distinct(f[0].hashtags) && tag in f[0].hashtags;
    TagHitsOfOneFair(f[0], tag);
    OtherFairsLackHuishoudbeursTag(tag);
    OneTagHits(f, h, f[0]);
  }

  lemma HuishoudbeursTags(h1: string, h2: string)
    requires Lower(h1) == "huishoudbeurs" && Lower(h2) == "huishoudbeurs"
    ensures HashtagHits(FairTable, [h1]) == [FairTable[0]] && HashtagHits(FairTable, [h2]) == [FairTable[0]]
    ensures FairTable[0].name == "Huishoudbeurs" && FairTable[0].account == "huishoudbeurs"
  {
    HuishoudbeursTag(h1);
    HuishoudbeursTag(h2);
  }

  lemma TotalOfTwo(a: Counts, b: Counts)
    ensures Total([a, b]) == Counts(a.count + b.count, a.sentiment + b.sentiment)
  {
    TotalOfParts([a], [b]);
    assert [a] + [b] == [a, b];
    assert [a][..0] == [] && [b][..0] == [];
  }

  lemma ValuesForTwo(key: string, v1: Counts, v2: Counts)
    ensures ValuesFor([Emission(key, v1), Emission(key, v2)], key) == [v1, v2]
  {
    var e1, e2 := Emission(key, v1), Emission(key, v2);
    assert [e1, e2][..1] == [e1] && [e1][..0] == [];
    assert ValuesFor([e1], key) == [v1];
  }

  lemma TwoTweetsWriteOneFair(fairs: seq<Fair>, g: Fair, hs1: seq<string>, text1: string, author1: string,
                              hs2: seq<string>, text2: string, author2: string)
    requires HashtagHits(fairs, hs1) == [g] && HashtagHits(fairs, hs2) == [g]
    requires author1 != g.account && author2 != g.account
    ensures var out1 := Classify(fairs, Some(Tweet(Some(Entities(hs1, [])), Some(text1), Some(author1))));
            var out2 := Classify(fairs, Some(Tweet(Some(Entities(hs2, [])), Some(text2), Some(author2))));
            out1.Emitted? && out2.Emitted? &&
            Total(ValuesFor(out1.writes + out2.writes, g.name)) == Counts(2, TextScore(text1) + TextScore(text2))
  {
    OneHitWritesOnce(fairs, hs1, g, text1, author1);
    OneHitWritesOnce(fairs, hs2, g, text2, author2);
    var v1, v2 := Counts(1, TextScore(text1)), Counts(1, TextScore(text2));
    assert [Emission(g.name, v1)] + [Emission(g.name, v2)] == [Emission(g.name, v1), Emission(g.name, v2)];
    ValuesForTwo(g.name, v1, v2);
    TotalOfTwo(v1, v2);
  }

  /**
   * Two visitors each tag the Huishoudbeurs, in any case: the reducer's output for
   * that fair is two mentions whose sentiment is the sum of the two texts' scores.
   */
  lemma TwoTweetsAboutTheHuishoudbeurs(h1: string, text1: string, author1: string, h2: string, text2: string, author2: string)
    requires Lower(h1) == "huishoudbeurs" && Lower(h2) == "huishoudbeurs"
    requires author1 != "huishoudbeurs" && author2 != "huishoudbeurs"
    ensures var out1 := Classify(FairTable, Some(Tweet(Some(Entities([h1], [])), Some(text1), Some(author1))));
            var out2 := Classify(FairTable, Some(Tweet(Some(Entities([h2], [])), Some(text2), Some(author2))));
            out1.Emitted? && out2.Emitted? &&
            Total(ValuesFor(out1.writes + out2.writes, "Huishoudbeurs")) == Counts(2, TextScore(text1) + TextScore(text2))
  {
    HuishoudbeursTags(h1, h2);
    TwoTweetsWriteOneFair(FairTable, FairTable[0], [h1], text1, author1, [h2], text2, author2);
  }

  lemma OneHuishoudbeursAlias(tag: string)
    ensures AliasMatches([FairTable[0]], tag) == if tag == "huishoudbeurs" then 1 else 0
  {
    var g := FairTable[0];
    var aliases: seq<string> := ["huishoudbeurs"];
    assert [g][..0] == [] && g.hashtags == aliases;
    assert AliasMatches([g], tag) == Occurrences(aliases, tag);
    assert aliases[..0] == [];
    assert Occurrences(aliases, tag) == Occurrences([], tag) + (if aliases[0] == tag then 1 else 0);
  }

  lemma HuishoudbeursPairs(h1: string, h2: string)
    requires Lower(h1) == "huishoudbeurs" && Lower(h2) == "huishoudbeurs"
    ensures PairMatches([FairTable[0]], ["ttf11", h1, h2]) == 2
  {
    var g := FairTable[0];
    var hts := ["ttf11", h1, h2];
    assert hts[..2] == ["ttf11", h1] && hts[..2][..1] == ["ttf11"] && hts[..2][..1][..0] == [];
    LowerOfTongTongTags();
    OneHuishoudbeursAlias("ttf11");
    OneHuishoudbeursAlias("huishoudbeurs");
    assert PairMatches([g], ["ttf11"]) == 0;
    assert PairMatches([g], ["ttf11", h1]) == 1;
  }

  /**
   * The Tong Tong Fair's account tags #ttf11 and the Huishoudbeurs twice: its own fair
   * is not written, and the Huishoudbeurs is written twice.
   */
  lemma OwnerTagsAnotherFairTwice(h1: string, h2: string, text: string)
    requires Lower(h1) == "huishoudbeurs" && Lower(h2) == "huishoudbeurs"
    ensures var out := Classify(FairTable, Some(Tweet(Some(Entities(["ttf11", h1, h2], [])), Some(text), Some("tongtongfair"))));
            out.Emitted? && |ValuesFor(out.writes, "Huishoudbeurs")| == 2 && ValuesFor(out.writes, "Tong Tong Fair") == []
  {
    var hts := ["ttf11", h1, h2];
    var g, t := FairTable[0], FairTable[3];
    var tweet := Tweet(Some(Entities(hts, [])), Some(text), Some("tongtongfair"));
    FairTableIsWellFormed();
    assert h1 in hts && Lower(h1) in g.hashtags;
    HashtagHitsMembers(FairTable, hts, g);
    HuishoudbeursPairs(h1, h2);
    HashtagWritesPerFair(FairTable, tweet, g);
    HashtagWritesPerFair(FairTable, tweet, t);
  }
}
