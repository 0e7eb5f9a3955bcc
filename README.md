# Price extraction of the Zoopla listings analyzer, in Dafny

The analyzer requests the result pages of a property search one after the
other. In each page's HTML tree it finds the listings container and collects
the asking price of every listing in it. This project models that pipeline
and proves what it computes:

- `PriceText` — `parsePrice`: trims white space, removes every comma,
  removes the first pound sign and parses the rest as an unsigned 64-bit
  decimal.
- `Strings` and `Strconv` — the parts of Go's `strings` and `strconv` that
  the analyzer relies on:
  - for `parsePrice`: `TrimSpace` with the `unicode.IsSpace` set, `Replace`
    removing all occurrences or only the first, and `ParseUint` with its
    syntax and range errors;
  - for the tree walks: `Contains`, which tests the class attributes.
- `Html` — the parsed document as a tree of nodes. Each node has a kind, a
  tag or text (`data`), attributes and children, in document order. The
  pre-order enumeration of the tree is the order in which both tree walks
  visit nodes.
- `Listings`:
  - `findListingsContainer`: a pure search, proved to return the first
    listings container in pre-order.
  - `parsePriceNode`: a loop over the children and their attributes.
  - `getPricesFromListings`: a recursive walk appending to an accumulator.
  - `parseHTML`: the two put together.
  - The loops of `parsePriceNode` and `getPricesFromListings` are methods
    proved equal to specification functions. Those functions' properties
    are then proved as lemmas:
    - soundness and completeness of the collected prices;
    - their order;
    - a bound on how many there are.
- `Pagination` — `getPricesPage` and the page loop of `getAllPrices`.
  Fetching a page is outside the model: the outcome of fetching page
  `i + 1` is given as the i-th element of a sequence. That outcome is
  either a document tree or a fetch error.
- `Search` and `Outcomes` — generic helpers:
  - the first index satisfying a predicate;
  - `Result` and `Option`.

The pound sign: `parsePrice` removes the first `£` wherever it stands, not
only a leading one; `PriceText.ParsePriceDropsInnerPound` proves the
consequence.

Repeated class attributes: `getPricesFromListings` reads a container's price
once per `class` attribute that mentions `PriceContainer`. A `div` carrying
two such attributes therefore contributes its price twice. The model keeps
this, through `Listings.PriceContainerCount`.

## Model

| member | source | states |
|---|---|---|
| PriceText.ParsePrice | analyzer.go:242-248 | succeeds exactly when the text after trimming, comma removal and first-pound removal is a non-empty digit string whose value fits in 64 bits, and then returns that value; otherwise the error names the normalised text |
| PriceText.NormalisePrice | analyzer.go:244-246 | the text handed to the number parser: trimmed, then every comma removed, then the first pound sign removed; its properties are the lemmas below |
| PriceText.NormalisedHasNoComma | analyzer.go:245 | no comma ever reaches the number parser |
| PriceText.NormaliseDisplayText | analyzer.go:243-246 | optional white space, an optional pound sign and a grouped amount normalise to the amount's digits |
| PriceText.ParsePriceOfDisplayText | analyzer.go:243-247 | such displayed text parses to the value of the amount's digits, or fails with a range error when that value exceeds 64 bits |
| PriceText.ParsePriceOfKnownDigits | analyzer.go:243-247 | a displayed amount whose digits are known and fit in 64 bits parses to their value |
| PriceText.ParsePriceRejectsNonDigit | analyzer.go:247 | any non-digit left after normalisation makes the parse fail |
| PriceText.ParsePriceRejectsSpaceAfterPound | analyzer.go:244-247 | white space between the pound sign and the digits is not trimmed, so such text never parses |
| PriceText.ParsePriceRejectsDoubledPound | analyzer.go:246-247 | only one pound sign is removed, so a doubled sign never parses |
| PriceText.ParsePriceDropsInnerPound | analyzer.go:246 | a pound sign between digits is removed as well: the result is that of parsing the digits on both sides joined |
| PriceText.NormaliseOfPlain | analyzer.go:244-246 | text with nothing to trim, no comma and no pound sign reaches the number parser unchanged |
| PriceText.ParsePriceOfDisplayedPrice | analyzer.go:243 | "£435,000" parses to 435000 |
| PriceText.ParsePriceOfThousands | analyzer.go:245 | "1,000" parses to 1000 |
| PriceText.ParsePriceOfPaddedPrice | analyzer.go:244-246 | "  £12  " parses to 12: trimming comes before pound removal |
| PriceText.ParsePriceRejectsEmpty | analyzer.go:247 | empty text is not a price |
| PriceText.ParsePriceRejectsWords | analyzer.go:247 | "abc" is not a price |
| Strconv.ParseUint | analyzer.go:247 | succeeds exactly on a non-empty digit string whose value is at most 2^64-1 and returns that value; a failure names the text, and its kind is the one the left-to-right scan meets first |
| Strconv.ScanDecimal | analyzer.go:247 | the digit loop of `ParseUint`: a non-digit is a syntax error, a value over 2^64-1 a range error, whichever comes first; `Strconv.ScanDecimalFrom` ties it to the outcome stated through the digit run |
| Strconv.ScanDecimalFrom | analyzer.go:247 | the digit-by-digit scan with overflow checks, started anywhere in the leading digit run, ends in the outcome `ParseUint` promises |
| Strconv.DecimalValueMonotone | analyzer.go:247 | extending a digit string never lowers its value, so an overflow inside the run is final |
| Strings.Contains | analyzer.go:173 | `strings.Contains`: `sub` is a prefix of `s` or of one of its suffixes, so the empty string is contained in every string; `Strings.ContainsAt` characterises it |
| Strings.ContainsAt | analyzer.go:229 | `Contains(s, sub)` holds exactly when `sub` occurs in `s` at some position |
| Strings.TrimSpace | analyzer.go:244 | `strings.TrimSpace`: leading then trailing `unicode.IsSpace` white space dropped; `Strings.TrimSpaceFrames` characterises it |
| Strings.RemoveAll | analyzer.go:245 | `strings.Replace(s, ",", "", -1)`: every occurrence removed, the rest kept in order; `Strings.RemoveAllMembers` states which characters survive, and `Strings.RemoveAllAppend` that removal works piece by piece |
| Strings.IndexOf | analyzer.go:246 | the position of the first occurrence, or -1; `Strings.IndexOfFirst` characterises it |
| Strings.RemoveFirst | analyzer.go:246 | `strings.Replace(s, "£", "", 1)`: the first occurrence removed; `Strings.RemoveFirstAfter` states this when there is an occurrence, and `Strings.RemoveFirstAbsent` that the text is unchanged when there is none |
| Strings.TrimSpaceFrames | analyzer.go:244 | trimming removes only white space and only from the two ends, and leaves no white space at either end |
| Strings.IndexOfFirst | analyzer.go:246 | the index found holds the first occurrence, and -1 means there is none |
| Strings.RemoveAllMembers | analyzer.go:245 | a character survives removing every occurrence of `c` exactly when it was in the text and is not `c` |
| Strings.RemoveAllAppend | analyzer.go:245 | removing every occurrence of `c` from joined text is joining the removals from each piece, so the surviving characters keep their order and number |
| Strings.RemoveFirstMembers | analyzer.go:246 | removing the first occurrence of a character adds no new characters |
| Strings.RemoveFirstAfter | analyzer.go:246 | the occurrence removed is the first one, wherever it stands |
| Strings.RemoveFirstAbsent | analyzer.go:246 | text without the character is returned unchanged |
| Html.PreOrder | analyzer.go:179-183 | a node is visited before its descendants: the enumeration starts with the node itself |
| Listings.FindListingsContainer | analyzer.go:164-187 | the result is the first listings container of the tree in depth-first pre-order, or none |
| Listings.FindInChildren | analyzer.go:179-184 | the loop over the children returns the first listings container among the children's trees, left to right |
| Listings.FindListingsContainerSound | analyzer.go:164-187 | what is found is a listings container of the tree, and nothing is found exactly when the tree has no listings container |
| Listings.FindListingsContainerFirst | analyzer.go:164-187 | every node visited before the one returned is not a listings container |
| Listings.ParsePriceNode | analyzer.go:221-240 | the nested loop returns the outcome decided by the first child that is a price paragraph: the parse of its first child's text, "no price in Text node" when it is empty, or "cannot find price data" when there is no such child |
| Listings.NoPriceDataIff | analyzer.go:222-239 | the outcome is "cannot find price data" exactly when no child is a price paragraph |
| Listings.PriceNodeResultOk | analyzer.go:222-234 | a price read comes from the first child's text of the first price paragraph |
| Listings.PriceNodeResultSkipsOthers | analyzer.go:222-229 | children before the price paragraph that are not price paragraphs, such as the price title, do not change the outcome |
| Listings.PriceNodeResultIgnoresLater | analyzer.go:230-233 | children after the first price paragraph do not change the outcome |
| Listings.ScanAttributes | analyzer.go:194-209 | a `div` is asked for its price once per price-container class attribute; each price read is appended and failures are skipped |
| Listings.ScanNode | analyzer.go:193-214 | the recursive walk appends the prices of the tree rooted at the node to the accumulator |
| Listings.ScanChildren | analyzer.go:211-213 | the loop over the children appends the prices of each child's tree in turn |
| Listings.GetPricesFromListings | analyzer.go:189-219 | returns exactly the prices of the listings tree |
| Listings.TreePricesPreOrder | analyzer.go:193-216 | prices come in depth-first pre-order: the node's own contributions first, then its descendants' |
| Listings.PricesOfSound | analyzer.go:200-206 | every collected price was read from a price container of the tree |
| Listings.PricesOfComplete | analyzer.go:200-206 | every price container whose price can be read contributes that price at least once per price-container class attribute |
| Listings.ListingPricesBound | analyzer.go:195-207 | at most one price is collected per price-container class attribute in the tree |
| Listings.ParseHTML | analyzer.go:154-162 | the page's prices are those of its first listings container, or none when there is no container |
| Listings.PagePricesSound | analyzer.go:154-162 | every price of a page was read from a price container inside the page's first listings container |
| Listings.PagePricesWithoutListings | analyzer.go:156-159 | a page without a listings container yields no prices |
| Pagination.GetPricesPage | analyzer.go:87-100 | a failed fetch is passed on as the error, otherwise the page's prices |
| Pagination.GetAllPrices | analyzer.go:71-85 | the loop returns the stopping page's error, numbered from 1, when its fetch failed, and otherwise the prices of all earlier pages in page order; the pages it requests are exactly 1, 2, ... up to the stopping page, in that order |
| Pagination.AllPricesIgnoresLaterPages | analyzer.go:73-84 | pages after the stopping page do not affect the outcome |
| Pagination.AllPricesErrIff | analyzer.go:75-77 | the result is an error exactly when the stopping page's fetch failed, and it carries that page's number and error |
| Pagination.AllPricesCount | analyzer.go:79-83 | a successful result holds at least one price per page before the empty page |
| Pagination.ThreePagesExample | analyzer.go:71-85 | pages with [100, 200], [300] and then no prices give [100, 200, 300], and later pages are never requested |
| Pagination.SecondPageFailsExample | analyzer.go:74-77 | a failed second page after a page with prices gives the error of page 2 |

## Left out

- Building the page URL (`getPageUrl`), the HTTP request, the status check and `html.Parse` (`getPageHTML`) are not modelled. A fetch is an outcome given to the model: a tree or an error whose text is opaque.
- The command line (`main`, `parseArgs`), `writePrices`, the price statistics and all logging are not modelled. They are I/O or outside the extraction of prices.
- Pagination.GetAllPrices: requires that some page stops the loop. The Go loop has no other exit, so for an endless series of priced pages it would not end.
- Pagination.GetAllPrices: the page number is unbounded. The 32-bit wrap-around of `pageNum` after 2^32-1 pages is not modelled.
- Strings are sequences of Unicode code points, while Go works on UTF-8 bytes. For valid UTF-8 this is the same for the operations used, since every character searched for and removed is a whole code point.
- Html.Node: keeps only the node kind, the tag or text, the attributes (key and value) and the children. Namespaces and atoms are not modelled; the walks do not read them.
- PriceText.ParsePrice: on failure Go's `ParseUint` also returns a value (2^64-1 with a range error, 0 with a syntax error); the model's `Err` carries none, since no caller reads it on error.
- Listings.ParsePriceNode: the Go errors are messages. The model returns one `PriceError` case for each of the three error returns, and the parse failure carries the `NumError`.
