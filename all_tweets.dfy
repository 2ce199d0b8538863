/**
 * The tweet-counting job: map writes ("Tweet", 1) for every input line, whatever
 * it holds, and reduce adds up the values it receives for a key.
 */
module AllTweets {
  import opened Sums

  datatype Pair = Pair(key: string, value: int)

  /** The one key map writes under. */
  const TweetKey: string := "Tweet"

  /** map: one constant pair per line; the line itself is never read. */
  function MapLine(line: string): seq<Pair>
  {
    [Pair(TweetKey, 1)]
  }

  /** The writes of the map phase over a sequence of input lines, in line order. */
  function MapLines(lines: seq<string>): seq<Pair>
  {
    if lines == [] then []
    else MapLines(lines[..|lines| - 1]) + MapLine(lines[|lines| - 1])
  }

  /** The values written under key, in the order they were written. */
  function ValuesFor(writes: seq<Pair>, key: string): seq<int>
  {
    if writes == [] then []
    else
      var p := writes[|writes| - 1];
      ValuesFor(writes[..|writes| - 1], key) + (if p.key == key then [p.value] else [])
  }

  /** reduce: the key goes out unchanged with the sum of its values. */
  method Reduce(key: string, values: seq<int>) returns (outKey: string, result: int)
    ensures outKey == key
    ensures result == Sum(values)
  {
    var sum := 0;
    for i := 0 to |values|
      invariant sum == Sum(values[..i])
    {
      assert values[..i + 1][..i] == values[..i];
      sum := sum + values[i];
    }
    assert values[..|values|] == values;
    outKey, result := key, sum;
  }

  /** map does not depend on the line it is given. */
  lemma MapIgnoresLine(a: string, b: string)
    ensures MapLine(a) == MapLine(b)
    ensures |MapLine(a)| == 1 && MapLine(a)[0].key == TweetKey && MapLine(a)[0].value == 1
  {
  }

  /** Every line gives exactly one ("Tweet", 1) pair, and nothing else is written. */
  lemma {:induction false} MapLinesShape(lines: seq<string>)
    ensures |MapLines(lines)| == |lines|
    ensures forall i :: 0 <= i < |lines| ==> MapLines(lines)[i] == Pair(TweetKey, 1)
  {
    if lines != [] {
      MapLinesShape(lines[..|lines| - 1]);
    }
  }

  /** Splitting the input between mappers does not change what is written. */
  lemma {:induction false} MapLinesAppend(a: seq<string>, b: seq<string>)
    ensures MapLines(a + b) == MapLines(a) + MapLines(b)
  {
    if b == [] {
      assert a + b == a;
    } else {
      var b' := b[..|b| - 1];
      assert (a + b)[..|a + b| - 1] == a + b';
      MapLinesAppend(a, b');
    }
  }

  /** The reducer for "Tweet" receives one 1 per input line, and no other key exists. */
  lemma {:induction false} ValuesOfMapLines(lines: seq<string>, key: string)
    ensures ValuesFor(MapLines(lines), key) == if key == TweetKey then seq(|lines|, _ => 1) else []
  {
    if lines != [] {
      var init := lines[..|lines| - 1];
      ValuesOfMapLines(init, key);
      assert MapLines(lines) == MapLines(init) + [Pair(TweetKey, 1)];
      assert MapLines(lines)[..|MapLines(lines)| - 1] == MapLines(init);
    }
  }

  /** An empty value list sums to 0. */
  lemma SumOfNoValues()
    ensures Sum([]) == 0
  {
  }

  /** The order in which the values arrive does not change the sum. */
  lemma SumIsOrderFree(a: seq<int>, b: seq<int>)
    requires multiset(a) == multiset(b)
    ensures Sum(a) == Sum(b)
  {
    SumByPermutation(a, b, Id);
  }

  /** Summing two parts separately and adding the partial sums gives the sum of the whole. */
  lemma SumOfParts(a: seq<int>, b: seq<int>)
    ensures Sum(a + b) == Sum(a) + Sum(b)
  {
    SumByAppend(a, b, Id);
  }

  /** When every value is 1, the sum is the number of values. */
  lemma SumOfOnes(values: seq<int>)
    requires forall i :: 0 <= i < |values| ==> values[i] == 1
    ensures Sum(values) == |values|
  {
    SumByConstant(values, Id, 1);
  }

  /** The job's one output, the total for "Tweet", is the number of input lines. */
  lemma TweetTotalIsLineCount(lines: seq<string>)
    ensures Sum(ValuesFor(MapLines(lines), TweetKey)) == |lines|
  {
    ValuesOfMapLines(lines, TweetKey);
    SumOfOnes(ValuesFor(MapLines(lines), TweetKey));
  }
}
