# Consumer-fair tweet analysis, modelled in Dafny

The repository holds two Hadoop map-reduce jobs over tweets in JSON form.

**Top 5 fairs** (`Top5FairsComplete`). Its mapper checks every tweet against a fixed table of five Dutch consumer fairs. Each fair has a display name, a list of hashtag aliases and the screen name of its own account.

- Hashtag pass. For every hashtag of the tweet, every fair and every alias whose text equals the lower-cased hashtag, it writes `(fair name, [1, sentiment])`. The write is skipped when the tweet's author is that fair's own account.
- Mention pass. It runs only if no alias matched at all. For every mention and every fair whose account equals the lower-cased screen name, it writes the same pair.
- Sentiment. It is the number of tokens of the text found in a positive word list minus the number found in a negative list. The tokens come from deleting everything but ASCII letters and spaces, lower-casing, and splitting on runs of spaces.
- Reducer. It adds up both components of all pairs written for a fair.

**All tweets** (`AllTweets`). Its mapper writes `("Tweet", 1)` for every input line, and its reducer sums the values.

The model is split into these modules:

| Module | File | What it holds |
|---|---|---|
| `Ascii` | `ascii.dfy` | ASCII case folding |
| `Sums` | `sums.dfy` | Sums over sequences, with append, permutation and constant lemmas |
| `Sentiment` | `sentiment.dfy` | The two word lists, `removePunctuation` as a function, `getSentiment` as a loop method |
| `Fairs` | `fair.dfy` | The `Fair` record as a datatype, and the literal table |
| `FairMapper` | `fair_mapper.dfy` | The mapper |
| `FairExamples` | `fair_examples.dfy` | Worked tweets against the literal table |
| `FairReducer` | `fair_reducer.dfy` | The fair job's reducer and the grouping of writes by key |
| `AllTweets` | `all_tweets.dfy` | The tweet-counting job |

The mapper is modelled in two parts:

- A specification function, `FairMapper.Classify`. It says what one call of `map` leaves behind: either the sequence of writes, or `Crashed` when the code would throw.
- The nested loops of the source, as methods proved equal to it. The triple loop is split into one method per loop level.

The result of the JSON parser is an `Option<Tweet>`:

- A parse failure, a non-object payload or a JSON `null` becomes `None`.
- A missing `entities` key becomes `entities == None`.
- A null `text` or a null author becomes `None` in that field.

Behaviour of the code worth noting:

- **A missing author or text crashes the mapper rather than skipping the tweet.** `user` is dereferenced at the first alias match (Top5FairsComplete.java:135-138), and `getSentiment(null)` throws. The model yields `Crashed`, and Hadoop then fails the task.
- **Aliases are a list, and matching writes once per (hashtag, alias) pair, not once per fair.** A tweet tagged `#ttf11 #ttf12` writes the Tong Tong Fair twice.
- **Java's `split("\\s+")` does not discard every empty token.** The empty text gives `[""]`, and text starting with a space gives a leading `""`. Neither scores, because no entry of either list is empty.
- **"geweldige" is an entry of the positive list in its own right** (Top5FairsComplete.java:36), so it scores +1.

## Model

| member | source | states |
|---|---|---|
| Ascii.Lower | Code/src/main/java/marlene/bigdata/Top5FairsComplete.java:312 | `toLowerCase` restricted to ASCII: same length, every character folded on its own, upper-case letters mapped to the same letter in lower case |
| Ascii.LowerFixesLowercase | Code/src/main/java/marlene/bigdata/Top5FairsComplete.java:130-131 | folding leaves a string unchanged exactly when it has no upper-case letter, and folding twice is folding once |
| Sentiment.StripPunctuation | Code/src/main/java/marlene/bigdata/Top5FairsComplete.java:312 | `replaceAll("[^a-zA-Z ]", "")`: only letters and spaces remain, and a string of letters and spaces is left as it is |
| Sentiment.StripAppend | Code/src/main/java/marlene/bigdata/Top5FairsComplete.java:312 | deleting characters works piecewise over a concatenation |
| Sentiment.Words | Code/src/main/java/marlene/bigdata/Top5FairsComplete.java:313 | the runs of non-space characters: no run is empty or holds a space, and every character of a run comes from the string |
| Sentiment.RemovePunctuation | Code/src/main/java/marlene/bigdata/Top5FairsComplete.java:311-314 | every character of every token is a lower-case ASCII letter |
| Sentiment.SpaceSeparatesWords | Code/src/main/java/marlene/bigdata/Top5FairsComplete.java:313 | a space splits the string into the words before it followed by the words after it |
| Sentiment.DeletedCharacterIsNoSeparator | Code/src/main/java/marlene/bigdata/Top5FairsComplete.java:312-313 | removing a digit, `#`, punctuation mark, tab, newline or accented letter glues its neighbours into one token instead of splitting them |
| Sentiment.NoTokenContainsSpace | Code/src/main/java/marlene/bigdata/Top5FairsComplete.java:37 | a lexicon entry containing a space equals no token of any text |
| Sentiment.WordsOfJoin | Code/src/main/java/marlene/bigdata/Top5FairsComplete.java:313 | splitting undoes joining non-empty space-free words with single spaces |
| Sentiment.RemovePunctuationOfJoin | Code/src/main/java/marlene/bigdata/Top5FairsComplete.java:311-314 | letter-only words joined with single spaces tokenise back to the same words, lower-cased, in order |
| Sentiment.GetSentiment | Code/src/main/java/marlene/bigdata/Top5FairsComplete.java:279-304 | the loops over tokens, positive and negative entries compute `TextScore` of the text |
| Sentiment.LexiconsAreDistinct | Code/src/main/java/marlene/bigdata/Top5FairsComplete.java:35-42 | neither list repeats an entry and no word is in both |
| Sentiment.ScoreIsCountDifference | Code/src/main/java/marlene/bigdata/Top5FairsComplete.java:290-300 | the score is the number of tokens found in the positive list minus the number found in the negative list |
| Sentiment.TextScoreIsCountDifference | Code/src/main/java/marlene/bigdata/Top5FairsComplete.java:286-303 | the same for `getSentiment` on a whole text |
| Sentiment.ChecksAreIndependent | Code/src/main/java/marlene/bigdata/Top5FairsComplete.java:292-299 | the positive and negative checks add up separately, for any lists |
| Sentiment.WordInBothListsNetsZero | Code/src/main/java/marlene/bigdata/Top5FairsComplete.java:292-299 | a word listed once in both lists scores 0 |
| Sentiment.OccurrencesOfDistinct | Code/src/main/java/marlene/bigdata/Top5FairsComplete.java:292-294 | against a list without repeats a word is counted once if listed and otherwise not at all |
| Sentiment.ScoreOfUnlistedTokens | Code/src/main/java/marlene/bigdata/Top5FairsComplete.java:290-300 | tokens in neither list score 0 |
| Sentiment.NoLexiconWordScoresZero | Code/src/main/java/marlene/bigdata/Top5FairsComplete.java:279-304 | a text with no listed token scores 0 |
| Sentiment.EmptyTextScoresZero | Code/src/main/java/marlene/bigdata/Top5FairsComplete.java:279-314 | the empty text tokenises to `[""]` and scores 0 |
| Sentiment.LeadingSpaceGivesEmptyToken | Code/src/main/java/marlene/bigdata/Top5FairsComplete.java:313 | letter words joined with single spaces after a leading space give `""` followed by the lower-cased words |
| Sentiment.SpacesGiveNoTokens | Code/src/main/java/marlene/bigdata/Top5FairsComplete.java:313 | a non-empty text of spaces only has no token at all |
| Sentiment.ScoreAppend | Code/src/main/java/marlene/bigdata/Top5FairsComplete.java:290-300 | the score of a concatenation of token sequences is the sum of their scores |
| Sentiment.LexiconWordScore | Code/src/main/java/marlene/bigdata/Top5FairsComplete.java:292-299 | against the source's lists a token scores +1, -1 or 0 according to the list that holds it |
| Sentiment.PhraseEntryNeverContributes | Code/src/main/java/marlene/bigdata/Top5FairsComplete.java:37 | entry 13 is "van de partij", and dropping it from the list changes no text's score |
| Fairs.ConstructorStoresArguments | Code/src/main/java/marlene/bigdata/Fair.java:26-30 | the constructor stores name, alias list and account exactly as passed, with no case folding |
| Fairs.Names | Code/src/main/java/marlene/bigdata/Top5FairsComplete.java:148 | the keys a table can produce: the fairs' names, position by position |
| Fairs.FairTableIsWellFormed | Code/src/main/java/marlene/bigdata/Top5FairsComplete.java:88-104 | the table's five names in order; names and accounts pairwise distinct; every alias and account in lower case |
| FairMapper.AliasHitsMembers | Code/src/main/java/marlene/bigdata/Top5FairsComplete.java:126-131 | the innermost loop matches a fair exactly when one of its aliases equals the hashtag |
| FairMapper.HashtagHitsMembers | Code/src/main/java/marlene/bigdata/Top5FairsComplete.java:121-131 | a fair is hit in the hashtag pass exactly when some lower-cased hashtag is one of its aliases |
| FairMapper.MentionHitsMembers | Code/src/main/java/marlene/bigdata/Top5FairsComplete.java:172-180 | a fair is hit in the mention pass exactly when some lower-cased screen name is its account |
| FairMapper.NotAuthoredByMembers | Code/src/main/java/marlene/bigdata/Top5FairsComplete.java:135-146 | self-exclusion keeps a hit exactly when the author is not that fair's account |
| FairMapper.AliasHitsShape | Code/src/main/java/marlene/bigdata/Top5FairsComplete.java:126-131 | one hit per alias equal to the hashtag, each of them the fair itself |
| FairMapper.HashtagHitsCount | Code/src/main/java/marlene/bigdata/Top5FairsComplete.java:121-131 | the hashtag pass hits once per (hashtag, fair, alias) triple whose lower-cased hashtag is the alias |
| FairMapper.NotAuthoredByLength | Code/src/main/java/marlene/bigdata/Top5FairsComplete.java:135-146 | self-exclusion only drops hits, and drops none when the author owns none of them |
| FairMapper.TagHitsAppend | Code/src/main/java/marlene/bigdata/Top5FairsComplete.java:124-127 | the hits of one hashtag over a split table are the hits of the parts, in table order |
| FairMapper.NoTagHits | Code/src/main/java/marlene/bigdata/Top5FairsComplete.java:124-131 | a hashtag that is no fair's alias hits nothing |
| FairMapper.Map | Code/src/main/java/marlene/bigdata/Top5FairsComplete.java:76-202 | `map`, with the five-fair table it builds, leaves behind exactly `Classify(FairTable, parsed)` |
| FairMapper.HashtagPass | Code/src/main/java/marlene/bigdata/Top5FairsComplete.java:118-168 | the hashtag loops write the unexcluded hits in loop order, or crash, and `hashtagFound` is set exactly when some alias matched |
| FairMapper.MatchFairs | Code/src/main/java/marlene/bigdata/Top5FairsComplete.java:124-166 | the loop over fairs for one hashtag extends the writes by that hashtag's hits, or crashes only when those hits make the code throw |
| FairMapper.MatchAliases | Code/src/main/java/marlene/bigdata/Top5FairsComplete.java:125-165 | the loop over one fair's aliases does the same for one fair |
| FairMapper.MatchAlias | Code/src/main/java/marlene/bigdata/Top5FairsComplete.java:127-164 | one alias: no effect unless it equals the hashtag; otherwise the flag is set and the fair is written or excluded |
| FairMapper.WriteHit | Code/src/main/java/marlene/bigdata/Top5FairsComplete.java:132-163 | on a match the user is read (crash if null), the fair's own account is excluded, otherwise the text is scored (crash if null) and `(name, [1, score])` written |
| FairMapper.MentionPass | Code/src/main/java/marlene/bigdata/Top5FairsComplete.java:171-200 | the mention loops write one pair per (mention, fair) match in loop order, or crash when a match meets a null text |
| FairMapper.MatchAccounts | Code/src/main/java/marlene/bigdata/Top5FairsComplete.java:174-198 | one screen name against every account: writes every fair whose account it is |
| FairMapper.EmitMembers | Code/src/main/java/marlene/bigdata/Top5FairsComplete.java:148-162 | a write is `(name, [1, score])` for a fair among the hits, and every hit gives one |
| FairMapper.MalformedTweetEmitsNothing | Code/src/main/java/marlene/bigdata/Top5FairsComplete.java:79-85 | a parse failure, a non-object or null tweet, or a missing `entities` writes nothing and does not crash |
| FairMapper.EmissionsAreWellFormed | Code/src/main/java/marlene/bigdata/Top5FairsComplete.java:148-155 | every write has count 1, a key that is a fair name of the table, and the score of the tweet's text as sentiment |
| FairMapper.OwnAccountIsExcluded | Code/src/main/java/marlene/bigdata/Top5FairsComplete.java:135-146 | a tweet from a fair's own account carrying one of its hashtags writes nothing for that fair |
| FairMapper.MentionsIgnoredAfterHashtagMatch | Code/src/main/java/marlene/bigdata/Top5FairsComplete.java:118-171 | once any alias matched, excluded or not, the mentions do not affect the outcome |
| FairMapper.HashtagPassDecides | Code/src/main/java/marlene/bigdata/Top5FairsComplete.java:118-171 | with a user and a text, a tweet whose hashtags hit writes exactly its unexcluded hits |
| FairMapper.MentionPassDecides | Code/src/main/java/marlene/bigdata/Top5FairsComplete.java:171-200 | with a text, a tweet whose hashtags miss writes exactly its mention hits |
| FairMapper.HashtagEmissions | Code/src/main/java/marlene/bigdata/Top5FairsComplete.java:121-163 | in the hashtag pass a fair is written exactly when a lower-cased hashtag is one of its aliases and the author is not its account |
| FairMapper.MentionEmissions | Code/src/main/java/marlene/bigdata/Top5FairsComplete.java:171-199 | in the mention pass a fair is written exactly when a lower-cased screen name is its account, its own account included |
| FairMapper.NoHashtagHits | Code/src/main/java/marlene/bigdata/Top5FairsComplete.java:118-132 | `hashtagFound` stays false exactly when no lower-cased hashtag is an alias of any fair |
| FairMapper.CaseVariantOfAliasMatches | Code/src/main/java/marlene/bigdata/Top5FairsComplete.java:130-131 | any case variant of an alias in the table matches its fair, unless the author is that fair's account |
| FairMapper.NullUserCrashesOnHashtagMatch | Code/src/main/java/marlene/bigdata/Top5FairsComplete.java:135-138 | with no user, map throws exactly when an alias matches or a mention match meets a null text |
| FairMapper.HashtagWriteCount | Code/src/main/java/marlene/bigdata/Top5FairsComplete.java:121-163 | in total, the hashtag pass writes at most once per matching (hashtag, alias) pair, and exactly once per pair when the author owns no fair |
| FairMapper.HashtagHitsCopies | Code/src/main/java/marlene/bigdata/Top5FairsComplete.java:121-131 | in a table that lists the fair at most once, the hashtag pass hits it once per matching (hashtag, alias) pair of its own if it is listed, and never otherwise |
| FairMapper.MentionHitsCopies | Code/src/main/java/marlene/bigdata/Top5FairsComplete.java:172-180 | in a table that lists the fair at most once, the mention pass hits it once per mention whose lower-cased screen name is its account if it is listed, and never otherwise |
| FairMapper.NotAuthoredByCopies | Code/src/main/java/marlene/bigdata/Top5FairsComplete.java:135-146 | self-exclusion removes every copy of the author's own fair and keeps every copy of any other fair |
| FairExamples.TongTongTags | Code/src/main/java/marlene/bigdata/Top5FairsComplete.java:95-99 | `ttf11` and `ttf12` are aliases of the Tong Tong Fair and of no other fair |
| FairExamples.SameFairTaggedTwiceWritesTwice | Code/src/main/java/marlene/bigdata/Top5FairsComplete.java:121-163 | `#ttf11 #TTF12` from a visitor writes the Tong Tong Fair twice |
| FairExamples.OwnTagWritesNothing | Code/src/main/java/marlene/bigdata/Top5FairsComplete.java:132-171 | a tweet whose only hit is a fair of its own author writes nothing, whatever its mentions and even with a null text |
| FairExamples.OwnHashtagSilencesMentions | Code/src/main/java/marlene/bigdata/Top5FairsComplete.java:132-171 | the Tong Tong Fair's account tagging `#ttf11` and mentioning `huishoudbeurs` writes nothing |
| FairExamples.OneHitWritesOnce | Code/src/main/java/marlene/bigdata/Top5FairsComplete.java:146-162 | a single hit by a foreign author writes one pair for that fair |
| FairExamples.AuthorMatchIsCaseSensitive | Code/src/main/java/marlene/bigdata/Top5FairsComplete.java:137-143 | author `TongTongFair` is not the account `tongtongfair`, so `#ttf11` from it is written |
| FairExamples.OwnerTagsAnotherFairTwice | Code/src/main/java/marlene/bigdata/Top5FairsComplete.java:121-163 | the Tong Tong Fair's account tagging `#ttf11` and the Huishoudbeurs twice, in any case, writes the Huishoudbeurs twice and its own fair never |
| FairExamples.TwoTweetsWriteOneFair | Code/src/main/java/marlene/bigdata/Top5FairsComplete.java:220-245 | two tweets that each hit one fair once reduce to count 2 and the sum of their scores |
| FairExamples.TwoTweetsAboutTheHuishoudbeurs | Code/src/main/java/marlene/bigdata/Top5FairsComplete.java:88-90 | two visitors tagging the Huishoudbeurs, in any case, give the Huishoudbeurs total `[2, score1 + score2]` |
| FairReducer.Reduce | Code/src/main/java/marlene/bigdata/Top5FairsComplete.java:220-245 | `reduce` writes the key unchanged with the sum of the counts and the sum of the sentiments |
| FairReducer.TotalOfNoValues | Code/src/main/java/marlene/bigdata/Top5FairsComplete.java:225-237 | no values give `[0, 0]` |
| FairReducer.TotalIsOrderFree | Code/src/main/java/marlene/bigdata/Top5FairsComplete.java:231-237 | the total does not depend on the order of the values |
| FairReducer.TotalOfParts | Code/src/main/java/marlene/bigdata/Top5FairsComplete.java:231-237 | the total of two parts added is the total of the whole |
| FairReducer.CountTotalOfSingleCounts | Code/src/main/java/marlene/bigdata/Top5FairsComplete.java:229-237 | values that each count 1 total their own number |
| FairReducer.ValuesForMembers | Code/src/main/java/marlene/bigdata/Top5FairsComplete.java:162 | the values grouped under a key are exactly those written with that key |
| FairReducer.KeyTotalOfStreams | Code/src/main/java/marlene/bigdata/Top5FairsComplete.java:225-244 | per key, the totals of two streams of writes add up to the total of both streams together |
| FairReducer.EmitValuesCount | Code/src/main/java/marlene/bigdata/Top5FairsComplete.java:146-162 | in a table with distinct names, the writes grouped under a fair's name are one per copy of that fair among the hits |
| FairReducer.HashtagWritesPerFair | Code/src/main/java/marlene/bigdata/Top5FairsComplete.java:121-163 | after a hashtag match a fair is written once per matching (hashtag, alias) pair of its own, or never when the author is its account |
| FairReducer.MentionWritesPerFair | Code/src/main/java/marlene/bigdata/Top5FairsComplete.java:171-199 | with no hashtag match a fair is written once per mention of its account, whoever the author is |
| FairReducer.KeyTotalOfOneTweet | Code/src/main/java/marlene/bigdata/Top5FairsComplete.java:146-163 | for one tweet's writes, a fair's count total is the number of its writes, and its sentiment total is that number times the tweet's score |
| AllTweets.MapIgnoresLine | Code/src/main/java/marlene/bigdata/AllTweets.java:30-42 | map writes the single pair `("Tweet", 1)` whatever the line holds |
| AllTweets.MapLinesShape | Code/src/main/java/marlene/bigdata/AllTweets.java:39-42 | over many lines, one `("Tweet", 1)` per line and nothing else |
| AllTweets.MapLinesAppend | Code/src/main/java/marlene/bigdata/AllTweets.java:39-42 | splitting the input between mappers does not change what is written |
| AllTweets.ValuesOfMapLines | Code/src/main/java/marlene/bigdata/AllTweets.java:30-41 | the reducer for "Tweet" receives one 1 per line, and other keys receive nothing |
| AllTweets.Reduce | Code/src/main/java/marlene/bigdata/AllTweets.java:59-69 | `reduce` writes the key unchanged with the sum of its values |
| AllTweets.SumOfNoValues | Code/src/main/java/marlene/bigdata/AllTweets.java:61-65 | no values sum to 0 |
| AllTweets.SumIsOrderFree | Code/src/main/java/marlene/bigdata/AllTweets.java:63-65 | the sum does not depend on the order of the values |
| AllTweets.SumOfParts | Code/src/main/java/marlene/bigdata/AllTweets.java:63-65 | summing two parts and adding the partial sums gives the sum of the whole |
| AllTweets.SumOfOnes | Code/src/main/java/marlene/bigdata/AllTweets.java:61-65 | values that are all 1 sum to their number |
| AllTweets.TweetTotalIsLineCount | Code/src/main/java/marlene/bigdata/AllTweets.java:27-69 | the job's total for "Tweet" is the number of input lines |

## Left out

- The `main` drivers of both jobs (Top5FairsComplete.java:252-272, AllTweets.java:76-95). They are Hadoop job configuration, paths and exit codes. The shuffle that groups writes by key is modelled only as `ValuesFor`, in write order; the order-independence lemmas cover any other delivery order.
- The json-simple parser. Its result is the abstract `Option<Tweet>`, with failures and `null` as `None`.
- Malformed tweet fields other than a null `text`, `user` or `screen_name`. The model's types cannot hold them. In the source they behave as follows:
  - A non-object `entities` (line 111), a non-list `hashtags` or `user_mentions` (lines 113-116) or a non-string `text` (line 117) throws a ClassCastException on every tweet that has entities, before any match.
  - A null `hashtags` list throws at line 120 on every tweet that has entities.
  - A null or non-object hashtag element, or a null or non-string hashtag `text`, throws at the first alias comparison (lines 121-131).
  - A non-object `user` or a non-string `screen_name` throws at the first alias match (lines 135-138).
  - A null `user_mentions` list, a null or non-object mention, or a null or non-string mention `screen_name` throws only when the mention pass runs (lines 171-180). After any alias match these are never read, and the tweet's writes are the same as for any well-formed mentions, as `FairMapper.MentionsIgnoredAfterHashtagMatch` states.
- Locale and Unicode case folding. Java's no-argument `toLowerCase()` folds in the JVM's default locale; under a Turkish locale `I` becomes dotless `ı`, so even ASCII folding depends on the locale. The model folds as in a locale such as English, on ASCII only. A non-ASCII letter is deleted by the filter, as in the source, but a non-ASCII capital in a hashtag or screen name is not folded.
- What a crashed `map` call had already written before it threw. `Crashed` records no writes, since Hadoop discards a failed task's output.
- Hadoop's `Text`, `IntWritable` and `Context`, and the reuse of the mutable output carriers (`hitString`, `tweetHit`, `tweetSentiment`, `mapArray`, `result`). Every write is a fresh value appended to a sequence.
- PrintableArrayWritable.java: only output formatting. So is the reducer's round trip of the values through their decimal strings (`toStrings` and `Integer.parseInt`): the values are modelled as integers directly.
- Sentiment.GetSentiment: does not model 32-bit `int` overflow of the score; integers are unbounded.
- FairReducer.Reduce: does not model 32-bit `int` overflow of the two totals; integers are unbounded.
- AllTweets.Reduce: does not model 32-bit `int` overflow of the sum; integers are unbounded.
- FairMapper.Map: the triple loop of the source is one method per loop level (`HashtagPass`, `MatchFairs`, `MatchAliases`, `MatchAlias`, `WriteHit`), and the mention loops are `MentionPass` and `MatchAccounts`. The order of comparisons and writes is the source's.
- Concrete token-by-token scores for particular sentences are not stated. Scoring is covered by the general lemmas, and the worked tweets of `FairExamples` keep the text symbolic.
