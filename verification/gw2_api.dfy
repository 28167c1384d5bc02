/**
 Request URLs for the Guild Wars 2 trading-post listings endpoints.

 Only the pure part of each request is modelled: the URL that would be fetched, and the
 check a batch lookup makes on its ids before any request is built. The HTTP call
 itself is left out.
 */
module Gw2Api {
  import opened Wrappers
  import opened Numerals

  // ---------------------------------------------------------------------------
  // URLs
  // ---------------------------------------------------------------------------

  /** The origin every request goes to. */
  const ApiDomain: string := "https://api.guildwars2.com"

  /** `build_url`: the endpoint path appended to the API origin. */
  function BuildUrl(endpoint: string): (url: string)
    ensures |url| == |ApiDomain| + |endpoint|
    ensures url[..|ApiDomain|] == ApiDomain
    ensures url[|ApiDomain|..] == endpoint
  {
    ApiDomain + endpoint
  }

  /** The endpoint path of a URL on the API origin; `None` for any other URL. */
  function EndpointOf(url: string): Option<string> {
    if |url| >= |ApiDomain| && url[..|ApiDomain|] == ApiDomain then Some(url[|ApiDomain|..]) else None
  }

  /** `EndpointOf` undoes `BuildUrl`. */
  lemma EndpointOfBuildUrl(endpoint: string)
    ensures EndpointOf(BuildUrl(endpoint)) == Some(endpoint)
  {
  }

  /** The only URL whose endpoint is `endpoint` is the one `BuildUrl` makes of it. */
  lemma BuildUrlUnique(endpoint: string, url: string)
    requires EndpointOf(url) == Some(endpoint)
    ensures url == BuildUrl(endpoint)
  {
    assert url == url[..|ApiDomain|] + url[|ApiDomain|..];
  }

  /** Path of the listings endpoint. */
  const ListingsPath: string := "/v2/commerce/listings"

  /** Path prefix of a batch listings lookup, before the id list. */
  const ManyListingsPath: string := "/v2/commerce/listings?ids="

  /** Path prefix of a single listing lookup, before the id. */
  const ListingPath: string := "/v2/commerce/listings/"

  // ---------------------------------------------------------------------------
  // Listing ids
  // ---------------------------------------------------------------------------

  /** Rust's `u32`. */
  type U32 = n: int | 0 <= n < 0x1_0000_0000

  /** The id of a trading-post listing. */
  datatype ListingId = ListingId(value: U32)

  /** `Display for ListingId`: the decimal rendering of the id, at most ten digits. */
  function Display(id: ListingId): (s: string)
    ensures IsCanonical(s)
    ensures ParseDecimal(s) == id.value
    ensures |s| <= 10
  {
    ParseToDecimal(id.value);
    ToDecimalLength(id.value, 10);
    ToDecimal(id.value)
  }

  /** Ids with the same rendering are the same id. */
  lemma DisplayInjective(a: ListingId, b: ListingId)
    requires Display(a) == Display(b)
    ensures a == b
  {
  }

  /** The URL `get_all` fetches: every listing id. */
  function AllListingsUrl(): (url: string)
    ensures EndpointOf(url) == Some(ListingsPath)
  {
    EndpointOfBuildUrl(ListingsPath);
    BuildUrl(ListingsPath)
  }

  /** The URL `get_listing` fetches: the listing path followed by the id's rendering. */
  function ListingUrl(id: ListingId): (url: string)
    ensures EndpointOf(url) == Some(ListingPath + Display(id))
    ensures |url| > |ApiDomain| + |ListingPath|
    ensures IsCanonical(url[|ApiDomain| + |ListingPath|..])
    ensures ParseDecimal(url[|ApiDomain| + |ListingPath|..]) == id.value
  {
    EndpointOfBuildUrl(ListingPath + Display(id));
    var url := BuildUrl(ListingPath + Display(id));
    assert url[|ApiDomain| + |ListingPath|..] == Display(id);
    url
  }

  // ---------------------------------------------------------------------------
  // The id list of a batch lookup
  // ---------------------------------------------------------------------------

  /** The most ids one batch lookup accepts. */
  const MaxIds: nat := 200

  /** Why a request was refused before it was sent. */
  datatype ApiError = TooManyIds(count: nat)

  /** The closure `get_many_listings` folds with: the first id starts the list, each later one follows a comma. */
  function AppendId(acc: string, id: ListingId): string {
    if acc == "" then Display(id) else acc + "," + Display(id)
  }

  /** Left fold of `AppendId` over `ids`, starting from `acc`. */
  function FoldIds(acc: string, ids: seq<ListingId>): string
    decreases |ids|
  {
    if ids == [] then acc else FoldIds(AppendId(acc, ids[0]), ids[1..])
  }

  /** The `ids=` parameter of a batch lookup: the fold started from the empty string. */
  function IdsParam(ids: seq<ListingId>): string {
    FoldIds("", ids)
  }

  /** The renderings of `ids`, in order. */
  function Displays(ids: seq<ListingId>): (parts: seq<string>)
    ensures |parts| == |ids|
  {
    seq(|ids|, i requires 0 <= i < |ids| => Display(ids[i]))
  }

  /** The numeric values of `ids`, in order. */
  function IdValues(ids: seq<ListingId>): (vs: seq<nat>)
    ensures |vs| == |ids|
  {
    seq(|ids|, i requires 0 <= i < |ids| => ids[i].value as nat)
  }

  /** `parts` separated by single commas: no comma before the first part or after the last. */
  function Join(parts: seq<string>): string
    decreases |parts|
  {
    if |parts| == 0 then ""
    else if |parts| == 1 then parts[0]
    else parts[0] + "," + Join(parts[1..])
  }

  /** Folding onto a non-empty accumulator appends a comma and the joined renderings. */
  lemma {:induction false} FoldOntoNonEmpty(acc: string, ids: seq<ListingId>)
    requires acc != ""
    ensures FoldIds(acc, ids) == if ids == [] then acc else acc + "," + Join(Displays(ids))
    decreases |ids|
  {
    if ids != [] {
      var rest := ids[1..];
      var d := Display(ids[0]);
      var acc' := acc + "," + d;
      assert FoldIds(acc, ids) == FoldIds(acc', rest) by {
        assert AppendId(acc, ids[0]) == acc';
      }
      FoldOntoNonEmpty(acc', rest);
      DisplaysCons(ids);
      JoinCons(acc, d, Displays(rest));
    }
  }

  /** The renderings of a non-empty id list: the first id's, then the rest's. */
  lemma DisplaysCons(ids: seq<ListingId>)
    requires ids != []
    ensures Displays(ids) == [Display(ids[0])] + Displays(ids[1..])
  {
  }

  /** Joining one more part in front, after an accumulated prefix. */
  lemma JoinCons(acc: string, d: string, rest: seq<string>)
    ensures (if rest == [] then acc + "," + d else (acc + "," + d) + "," + Join(rest))
            == acc + "," + Join([d] + rest)
  {
    if rest != [] {
      assert ([d] + rest)[1..] == rest;
    }
  }

  /** The fold computes the comma-join of the ids' renderings, in input order. */
  lemma IdsParamIsJoin(ids: seq<ListingId>)
    ensures IdsParam(ids) == Join(Displays(ids))
  {
    if ids != [] {
      var rest := ids[1..];
      assert AppendId("", ids[0]) == Display(ids[0]);
      FoldOntoNonEmpty(Display(ids[0]), rest);
      assert Displays(ids)[1..] == Displays(rest);
    }
  }

  /**
   `get_many_listings` up to the request: more than `MaxIds` ids are refused before any
   URL is built; otherwise the URL carries the ids' renderings joined by commas.
   */
  function ManyListingsUrl(ids: seq<ListingId>): (r: Result<string, ApiError>)
    ensures r.Failure? <==> |ids| > MaxIds
    ensures r.Failure? ==> r.error == TooManyIds(|ids|)
    ensures r.Success? ==> r.value == BuildUrl(ManyListingsPath + Join(Displays(ids)))
  {
    if |ids| > MaxIds then Failure(TooManyIds(|ids|))
    else
      IdsParamIsJoin(ids);
      Success(BuildUrl(ManyListingsPath + IdsParam(ids)))
  }

  // ---------------------------------------------------------------------------
  // Properties of the joined id list
  // ---------------------------------------------------------------------------

  /** Number of commas in `s`. */
  function CountCommas(s: string): nat
    decreases |s|
  {
    if s == [] then 0 else (if s[0] == ',' then 1 else 0) + CountCommas(s[1..])
  }

  lemma {:induction false} CountCommasAppend(a: string, b: string)
    ensures CountCommas(a + b) == CountCommas(a) + CountCommas(b)
    decreases |a|
  {
    if a == [] {
      assert a + b == b;
    } else {
      assert (a + b)[1..] == a[1..] + b;
      CountCommasAppend(a[1..], b);
    }
  }

  lemma {:induction false} CountCommasDigits(s: string)
    requires AllDigits(s)
    ensures CountCommas(s) == 0
    decreases |s|
  {
    if s != [] {
      CountCommasDigits(s[1..]);
    }
  }

  /** No part contains a comma. */
  ghost predicate CommaFree(parts: seq<string>) {
    forall i, k :: 0 <= i < |parts| && 0 <= k < |parts[i]| ==> parts[i][k] != ','
  }

  /** Joining `n >= 1` comma-free parts puts exactly `n - 1` commas in. */
  lemma {:induction false} JoinCommaCount(parts: seq<string>)
    requires CommaFree(parts)
    ensures CountCommas(Join(parts)) == if |parts| == 0 then 0 else |parts| - 1
    decreases |parts|
  {
    if |parts| == 1 {
      NoCommaCount(parts[0]);
    } else if |parts| > 1 {
      NoCommaCount(parts[0]);
      JoinCommaCount(parts[1..]);
      CountCommasAppend(parts[0] + ",", Join(parts[1..]));
      CountCommasAppend(parts[0], ",");
    }
  }

  lemma {:induction false} NoCommaCount(s: string)
    requires forall k :: 0 <= k < |s| ==> s[k] != ','
    ensures CountCommas(s) == 0
    decreases |s|
  {
    if s != [] {
      NoCommaCount(s[1..]);
    }
  }

  /** Renderings are digits only, so they carry no comma. */
  lemma DisplaysCommaFree(ids: seq<ListingId>)
    ensures CommaFree(Displays(ids))
  {
    forall i, k | 0 <= i < |ids| && 0 <= k < |Displays(ids)[i]|
      ensures Displays(ids)[i][k] != ','
    {
      assert IsDigit(Display(ids[i])[k]);
    }
  }

  /** The id parameter holds exactly one comma fewer than there are ids, and none for no ids. */
  lemma IdsParamCommaCount(ids: seq<ListingId>)
    ensures CountCommas(IdsParam(ids)) == if |ids| == 0 then 0 else |ids| - 1
  {
    IdsParamIsJoin(ids);
    DisplaysCommaFree(ids);
    JoinCommaCount(Displays(ids));
  }

  /** A join of non-empty parts starts with the first part's first character and ends with the last part's last one. */
  lemma {:induction false} JoinEnds(parts: seq<string>)
    requires |parts| > 0
    requires forall i :: 0 <= i < |parts| ==> |parts[i]| > 0
    ensures |Join(parts)| > 0
    ensures Join(parts)[0] == parts[0][0]
    ensures Join(parts)[|Join(parts)| - 1] == parts[|parts| - 1][|parts[|parts| - 1]| - 1]
    decreases |parts|
  {
    if |parts| > 1 {
      JoinEnds(parts[1..]);
    }
  }

  /** No ids give the empty parameter; otherwise it begins and ends with a digit, never a comma. */
  lemma IdsParamEnds(ids: seq<ListingId>)
    ensures |ids| == 0 <==> IdsParam(ids) == ""
    ensures |ids| > 0 ==> IsDigit(IdsParam(ids)[0]) && IsDigit(IdsParam(ids)[|IdsParam(ids)| - 1])
  {
    IdsParamIsJoin(ids);
    if |ids| > 0 {
      var parts := Displays(ids);
      JoinEnds(parts);
      assert IsDigit(parts[0][0]);
      assert IsDigit(parts[|parts| - 1][|parts[|parts| - 1]| - 1]);
    }
  }

  // ---------------------------------------------------------------------------
  // Reading the id list back
  // ---------------------------------------------------------------------------

  /** The comma-separated fields of `s`; a string without commas is one field. */
  function Split(s: string): (fields: seq<string>)
    ensures |fields| >= 1
    decreases |s|
  {
    if s == [] then [""]
    else
      var rest := Split(s[1..]);
      if s[0] == ',' then [""] + rest
      else [[s[0]] + rest[0]] + rest[1..]
  }

  lemma {:induction false} SplitNoComma(a: string)
    requires forall k :: 0 <= k < |a| ==> a[k] != ','
    ensures Split(a) == [a]
    decreases |a|
  {
    if a != [] {
      SplitNoComma(a[1..]);
      assert [a[0]] + a[1..] == a;
    }
  }

  lemma {:induction false} SplitAfterField(a: string, b: string)
    requires forall k :: 0 <= k < |a| ==> a[k] != ','
    ensures Split(a + "," + b) == [a] + Split(b)
    decreases |a|
  {
    var s := a + "," + b;
    if a == [] {
      assert s[1..] == b;
    } else {
      assert s[1..] == a[1..] + "," + b;
      SplitAfterField(a[1..], b);
      assert [a[0]] + a[1..] == a;
    }
  }

  /** Splitting a join of comma-free parts gives the parts back. */
  lemma {:induction false} SplitJoin(parts: seq<string>)
    requires |parts| > 0
    requires CommaFree(parts)
    ensures Split(Join(parts)) == parts
    decreases |parts|
  {
    if |parts| == 1 {
      SplitNoComma(parts[0]);
    } else {
      assert CommaFree(parts[1..]) by {
        forall i, k | 0 <= i < |parts[1..]| && 0 <= k < |parts[1..][i]|
          ensures parts[1..][i][k] != ','
        {
          assert parts[1..][i] == parts[i + 1];
        }
      }
      SplitJoin(parts[1..]);
      SplitAfterField(parts[0], Join(parts[1..]));
      assert [parts[0]] + parts[1..] == parts;
    }
  }

  /** The values of a list of numerals; `None` if a field is empty or holds a non-digit. */
  function ParseFields(fields: seq<string>): Option<seq<nat>>
    decreases |fields|
  {
    if fields == [] then Some([])
    else if |fields[0]| == 0 || !AllDigits(fields[0]) then None
    else
      match ParseFields(fields[1..])
      case None => None
      case Some(rest) => Some([ParseDecimal(fields[0])] + rest)
  }

  /** The ids an `ids=` parameter names: none for the empty string, else one per comma-separated numeral. */
  function DecodeIds(param: string): Option<seq<nat>> {
    if param == "" then Some([]) else ParseFields(Split(param))
  }

  lemma {:induction false} ParseDisplays(ids: seq<ListingId>)
    ensures ParseFields(Displays(ids)) == Some(IdValues(ids))
    decreases |ids|
  {
    if ids != [] {
      assert Displays(ids)[1..] == Displays(ids[1..]);
      ParseDisplays(ids[1..]);
      assert IdValues(ids) == [ids[0].value as nat] + IdValues(ids[1..]);
    }
  }

  /** The id parameter of a batch lookup names exactly the given ids, in order. */
  lemma IdsParamRoundTrip(ids: seq<ListingId>)
    ensures DecodeIds(IdsParam(ids)) == Some(IdValues(ids))
  {
    IdsParamEnds(ids);
    IdsParamIsJoin(ids);
    if ids != [] {
      DisplaysCommaFree(ids);
      SplitJoin(Displays(ids));
      ParseDisplays(ids);
    }
  }
}
