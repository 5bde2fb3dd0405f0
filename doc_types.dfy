/**
 * The closed set of document types of the Docs command: the five integer
 * codes, MAPPING from code to the lower-case module name that the route
 * filter compares against, the --type validation of getType, and the
 * README heading written by createReadme.
 */
module DocTypes {
  import opened Wrappers

  const CUSTOMER := 1
  const RIDER := 2
  const BUSINESS := 3
  const POS := 4
  const COMMON := 5

  /** The list getType checks membership in. */
  const TYPES: seq<int> := [CUSTOMER, RIDER, BUSINESS, POS, COMMON]

  /** Document type code to the name of the controllers' namespace segment. */
  const MAPPING: map<int, string> := map[
    CUSTOMER := "customer",
    RIDER := "rider",
    BUSINESS := "business",
    POS := "pos",
    COMMON := "common"
  ]

  /** A module name consists of lower-case ASCII letters only. */
  predicate IsLowerName(s: string) {
    s != [] && forall i :: 0 <= i < |s| ==> 'a' <= s[i] <= 'z'
  }

  /** MAPPING is defined on exactly the five codes of TYPES, with the table the command declares. */
  lemma MappingTotal()
    ensures forall t :: t in MAPPING <==> t in TYPES
    ensures MAPPING[CUSTOMER] == "customer" && MAPPING[RIDER] == "rider"
    ensures MAPPING[BUSINESS] == "business" && MAPPING[POS] == "pos" && MAPPING[COMMON] == "common"
  {
  }

  /** Every name in MAPPING is lower-case, so it never equals a capitalised namespace segment. */
  lemma MappingLowerCase()
    ensures forall t :: t in MAPPING ==> IsLowerName(MAPPING[t])
  {
  }

  /** Two different codes never share a module name. */
  lemma MappingInjective(t: int, u: int)
    requires t in MAPPING && u in MAPPING && t != u
    ensures MAPPING[t] != MAPPING[u]
  {
  }

  /**
   * getType: `--type` missing or falsy becomes 0; anything not in TYPES
   * ends the command. The option is taken as an integer (the loose
   * string/int comparison of in_array is not modelled).
   */
  function GetType(typeOption: Option<int>): (r: Result<int, Exit>)
    ensures r.Success? <==> typeOption.Some? && typeOption.value in TYPES
    ensures r.Success? ==> typeOption == Some(r.value) && r.value in MAPPING
    ensures r.Failure? ==> r.error == TypeDoesNotExist
  {
    var t := if typeOption.Some? && typeOption.value != 0 then typeOption.value else 0;
    if t !in TYPES then Failure(TypeDoesNotExist) else Success(t)
  }

  /** createReadme: the README heading of a document type, empty for any other code. */
  function CreateReadme(t: int): (contents: string)
    ensures contents != [] <==> t in TYPES
    ensures contents != [] ==> |contents| > 2 && contents[..2] == "# "
  {
    var contents := "";
    if t == CUSTOMER then contents + "# 用户端"
    else if t == RIDER then contents + "# 骑手端"
    else if t == BUSINESS then contents + "# 商家端（商家APP/商家PC）"
    else if t == POS then contents + "# POS/PAD端"
    else if t == COMMON then contents + "# 公共接口"
    else contents
  }

  /** Different document types get different README headings. */
  lemma CreateReadmeInjective(t: int, u: int)
    requires t in TYPES && u in TYPES && t != u
    ensures CreateReadme(t) != CreateReadme(u)
  {
    var a, b := CreateReadme(t), CreateReadme(u);
    assert a[2] != b[2] || a[3] != b[3];
  }

  /** The business README is the business heading the command writes. */
  lemma CreateReadmeBusiness()
    ensures CreateReadme(BUSINESS) == "# 商家端（商家APP/商家PC）"
  {
  }

  /** Every code getType accepts has both a module name and a non-empty README. */
  lemma AcceptedTypeIsComplete(typeOption: Option<int>)
    requires GetType(typeOption).Success?
    ensures GetType(typeOption).value in MAPPING
    ensures IsLowerName(MAPPING[GetType(typeOption).value])
    ensures CreateReadme(GetType(typeOption).value) != []
  {
  }
}
