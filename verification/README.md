# Guild Wars 2 trading-post spread profit, modelled in Dafny

The program is a client for the Guild Wars 2 trading-post API. It also contains
a ranking module that orders markets by the profit of buying at the best bid and
selling at the best ask, less a 15% sell fee; no code in the program calls that
module or builds order books from listings. This project models two pure parts of
the program and proves properties of them.

- **Strategy** (`strategy.dfy`). An order book keeps each side in an ordered map
  keyed by price. Bids are read highest price first and asks lowest price first.
  The profit of a market is computed from its best ask and best bid. The markets
  are then ranked in a second ordered map keyed by profit, and the best entry has
  the highest profit.
- **Request construction** (`gw2_api.dfy`). This covers the API origin that
  every URL starts with and the decimal rendering of a listing id. It also
  covers what a batch lookup does before any request: it refuses more than 200
  ids and folds the ids into one comma-separated parameter.

Supporting modules:

- `wrappers.dfy`: `Option` and `Result`.
- `sorted_maps.dfy`: models Rust's `BTreeMap<Decimal, V>` as a strictly ascending
  sequence of entries. Its meaning is the map `ToMap`, in which a later pair with
  the same key overrides an earlier one. `Collect` is `Iterator::collect` into
  such a map, and `PresentPairs` is the `filter_map` step in front of it.
- `numerals.dfy`: decimal numerals of natural numbers, as Rust's `Display`
  writes an unsigned integer, and reading them back.

`rust_decimal::Decimal` is modelled as the exact `real`. The sell fee is the
constant `SellFee == 0.15`.

## Model

| member | source | states |
|---|---|---|
| SortedMaps.Insert | src/strategy.rs:37-38 | Inserting into the ordered map overrides the key's previous value and leaves every other key alone. The result stays strictly ascending and grows by at most one entry. |
| SortedMaps.Collect | src/strategy.rs:37-38 | Collecting pairs into the ordered map keeps every key that occurs. A later pair with the same key replaces an earlier one. The result is no longer than the input, and each entry is one of the input pairs. |
| SortedMaps.PresentPairsMeaning | src/strategy.rs:80-84 | After `filter_map`, a key is in the collected map iff some position yields it. The value stored is the one from the last position that yields that key. |
| SortedMaps.LastPresent | src/strategy.rs:80-84 | Every key some position yields has a last position that yields it. |
| Strategy.SideOf | src/strategy.rs:37-38 | One side of a book has a price as a key iff some input level has that price. The level stored is the last input level at that price. The side has no more entries than there were levels. |
| Strategy.NewOrderbook | src/strategy.rs:31-40 | Both sides are built this way, asks from the asks and bids from the bids. |
| Strategy.Asks | src/strategy.rs:46-48 | Yields exactly the ask map's levels, one per price, in strictly ascending price order. |
| Strategy.AsksCoverMap | src/strategy.rs:46-48 | Every level in the ask map is yielded by `Asks`. |
| Strategy.Bids | src/strategy.rs:42-44 | Yields exactly the bid map's levels, one per price, in strictly descending price order. |
| Strategy.BidsCoverMap | src/strategy.rs:42-44 | Every level in the bid map is yielded by `Bids`. |
| Strategy.CalcProfit | src/strategy.rs:52-57 | The result is `None` iff the ask side or the bid side is empty. Otherwise it is `(a - b) - a * 0.15`, where `a` is the lowest ask price and `b` is the highest bid price. |
| Strategy.ProfitIgnoresSizes | src/strategy.rs:55-56 | Two books built from levels with the same prices in the same order have the same profit, whatever the sizes are. |
| Strategy.TwoLevelProfit | src/strategy.rs:52-57 | With two bids and two asks, each pair in increasing price, the profit is the net profit between the lower ask and the higher bid. |
| Strategy.SingleLevelProfit | src/strategy.rs:52-57 | A book with one bid and one ask earns the net profit between those two prices. |
| Strategy.NaiveProfitExample | src/strategy.rs:93-118 | Bids at 1 and 2 and asks at 3 and 4 give profit `1 - 3 * 0.15`. |
| Strategy.FindProfit | src/strategy.rs:73-86 | A profit is a key of the result iff some market yields it. Its entry is the last market in input order that yields it. The result has at most as many entries as there are markets. |
| Strategy.Iter | src/strategy.rs:64-66 | Yields exactly the entries of the profit map, one per profit, in strictly descending profit order. |
| Strategy.IterCoversMap | src/strategy.rs:64-66 | Every entry of the profit map is yielded by `Iter`. |
| Strategy.Best | src/strategy.rs:68-70 | The result is `None` iff the profit map is empty. Otherwise it is an entry of the map whose profit is at least every profit in the map. |
| Strategy.BestIsGreatest | src/strategy.rs:68-70 | If a profit in the map is at least every other profit, the best entry is that profit with its market. |
| Strategy.FindProfitBest | src/strategy.rs:68-86 | The best entry of `find_profit` is `None` iff no market yields a profit. Otherwise its profit is at least every market's profit, and it carries the last market that yields that profit. |
| Strategy.RankThreeMarkets | src/strategy.rs:164-167 | For three markets with strictly increasing profits, all three are ranked and the third is the best. |
| Strategy.FindBestProfitExample | src/strategy.rs:121-168 | All markets bid 2, and they ask 3, 4 and 5. The best profit is `3 - 5 * 0.15`, carried by the third market, and the ranking has three entries. |
| Gw2Api.BuildUrl | src/gw2_api.rs:1-5 | The URL is the origin `https://api.guildwars2.com` followed by the endpoint, with nothing in between. |
| Gw2Api.EndpointOfBuildUrl | src/gw2_api.rs:1-5 | Removing the origin from a built URL gives the endpoint back. |
| Gw2Api.BuildUrlUnique | src/gw2_api.rs:1-5 | The only URL with a given endpoint is the one `BuildUrl` makes. |
| Gw2Api.Display | src/gw2_api.rs:16-20 | An id renders as a canonical decimal numeral of at most ten digits, and that numeral reads back as the id's value. |
| Gw2Api.DisplayInjective | src/gw2_api.rs:16-20 | Distinct ids render differently. |
| Numerals.ParseToDecimal | src/gw2_api.rs:16-20 | Reading back the decimal rendering of `n` gives `n`. |
| Numerals.ToDecimalParse | src/gw2_api.rs:16-20 | Rendering the value of a canonical numeral gives the numeral back. |
| Gw2Api.AllListingsUrl | src/gw2_api.rs:40-42 | `get_all` fetches the listings endpoint on the API origin. |
| Gw2Api.ListingUrl | src/gw2_api.rs:44-48 | `get_listing` fetches the listing path followed by the id's rendering. The part after the path is a canonical numeral whose value is the id. |
| Gw2Api.ManyListingsUrl | src/gw2_api.rs:54-68 | Fails iff there are more than 200 ids, so exactly 200 is accepted. The error carries the count. Otherwise the URL is the batch path followed by the ids' renderings joined by single commas. |
| Gw2Api.IdsParamIsJoin | src/gw2_api.rs:59-66 | The fold computes the ids' renderings, in input order, separated by single commas. |
| Gw2Api.IdsParamCommaCount | src/gw2_api.rs:59-66 | For `n` ids the parameter holds `n - 1` commas, and none when there are no ids. |
| Gw2Api.IdsParamEnds | src/gw2_api.rs:59-66 | The parameter is empty iff there are no ids. Otherwise it starts and ends with a digit, so there is no leading or trailing comma. |
| Gw2Api.IdsParamRoundTrip | src/gw2_api.rs:59-66 | Splitting the parameter at commas and reading each field gives back the ids' values, in order. |

## Left out

- The HTTP client (`src/client.rs`) and every `client.get` call are left out: the network, status codes and JSON decoding. Only the URL each call would fetch is modelled.
- The `ListingItem` and `Listings` records are left out because they are only decoded from JSON responses, and decoding is not modelled.
- The entry point (`src/main.rs`) is left out. It is async I/O and printing, and it uses a `prices` module that is not part of this model.
- `rust_decimal` precision, scale and overflow are not modelled. Prices, sizes and profits are exact reals, so no arithmetic rounds or overflows.
- Gw2Api.ManyListingsUrl: the error is the count of ids, not `eyre`'s formatted message text.
- Strategy.FindProfit: the market id is an unbounded `nat` rather than a `usize`, and the map stores market values rather than references. Neither affects which market is kept.
