/**
 * A consumer fair: its display name (the reducer key), the hashtags that count as a
 * mention of it, and the screen name of its own account. The record is built once
 * and never changed, so it is a datatype; the constructor stores its three arguments
 * as given, with no case normalisation.
 */
module Fairs {
  import opened Ascii

  datatype Fair = Fair(name: string, hashtags: seq<string>, account: string)

  /** The constructor keeps every argument untouched, upper-case letters included. */
  lemma ConstructorStoresArguments(name: string, hashtagsList: seq<string>, account: string)
    ensures Fair(name, hashtagsList, account).name == name
    ensures Fair(name, hashtagsList, account).hashtags == hashtagsList
    ensures Fair(name, hashtagsList, account).account == account
  {
  }

  /** The five fairs the mapper checks every tweet against, in table order. */
  const FairTable: seq<Fair> := [
    Fair("Huishoudbeurs", ["huishoudbeurs"], "huishoudbeurs"),
    Fair("Vakantiebeurs", ["vakantiebeurs"], "devakantiebeurs"),
    Fair("50-Plus Beurs", ["50plusbeurs"], "50plusbeurs"),
    Fair("Tong Tong Fair", ["ttf11", "ttf12", "ttf13", "ttf14", "ttf15", "tongtongfair"], "tongtongfair"),
    Fair("Motorbeurs", ["mbu2011", "mbu2012", "mbu2013", "mbu2014", "mbu2015", "motorbeursutrecht"], "demotorbeurs")
  ]

  function Names(fairs: seq<Fair>): (names: seq<string>)
    ensures |names| == |fairs|
    ensures forall i :: 0 <= i < |fairs| ==> names[i] == fairs[i].name
  {
    if fairs == [] then [] else [fairs[0].name] + Names(fairs[1..])
  }

  /** Every alias and every account of a table is already lower case. */
  predicate LowercaseTable(fairs: seq<Fair>) {
    forall i :: 0 <= i < |fairs| ==>
      IsLowercase(fairs[i].account) &&
      forall j :: 0 <= j < |fairs[i].hashtags| ==> IsLowercase(fairs[i].hashtags[j])
  }

  /** No two fairs of a table share a name or an account. */
  predicate DistinctFairs(fairs: seq<Fair>) {
    forall i, j :: 0 <= i < j < |fairs| ==>
      fairs[i].name != fairs[j].name && fairs[i].account != fairs[j].account
  }

  /**
   * The literal table: five fairs with distinct names and accounts, and every alias
   * and account written in lower case, which is what makes matching against a
   * lower-cased hashtag or mention case-insensitive.
   */
  lemma FairTableIsWellFormed()
    ensures Names(FairTable) == ["Huishoudbeurs", "Vakantiebeurs", "50-Plus Beurs", "Tong Tong Fair", "Motorbeurs"]
    ensures DistinctFairs(FairTable)
    ensures LowercaseTable(FairTable)
  {
    FairTableIsLowercase();
  }

  lemma FairTableIsLowercase()
    ensures LowercaseTable(FairTable)
  {
    HuishoudbeursIsLowercase();
    VakantiebeursIsLowercase();
    PlusBeursIsLowercase();
    TongTongFairIsLowercase();
    MotorbeursIsLowercase();
  }

  lemma HuishoudbeursIsLowercase()
    ensures IsLowercase(FairTable[0].account) && forall a :: a in FairTable[0].hashtags ==> IsLowercase(a)
  {
    assert IsLowercase("huishoudbeurs");
  }

  lemma VakantiebeursIsLowercase()
    ensures IsLowercase(FairTable[1].account) && forall a :: a in FairTable[1].hashtags ==> IsLowercase(a)
  {
    assert IsLowercase("vakantiebeurs") && IsLowercase("devakantiebeurs");
  }

  lemma PlusBeursIsLowercase()
    ensures IsLowercase(FairTable[2].account) && forall a :: a in FairTable[2].hashtags ==> IsLowercase(a)
  {
    assert IsLowercase("50plusbeurs");
  }

  lemma TongTongFairIsLowercase()
    ensures IsLowercase(FairTable[3].account) && forall a :: a in FairTable[3].hashtags ==> IsLowercase(a)
  {
    assert IsLowercase("ttf11") && IsLowercase("ttf12") && IsLowercase("ttf13");
    assert IsLowercase("ttf14") && IsLowercase("ttf15") && IsLowercase("tongtongfair");
  }

  lemma MotorbeursIsLowercase()
    ensures IsLowercase(FairTable[4].account) && forall a :: a in FairTable[4].hashtags ==> IsLowercase(a)
  {
    assert IsLowercase("mbu2011") && IsLowercase("mbu2012") && IsLowercase("mbu2013");
    assert IsLowercase("mbu2014") && IsLowercase("mbu2015");
    assert IsLowercase("motorbeursutrecht") && IsLowercase("demotorbeurs");
  }
}
