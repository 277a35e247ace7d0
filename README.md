# North Dakota company crawler: a verified model of its data rules

The crawler works in four stages.
1. It lists active companies whose names start with "X" from the North Dakota Secretary of State's business search.
2. It fetches one detail page per company and cuts the registered agent and the owner out of the page text with fixed marker strings.
3. It merges the two tables on the company ID.
4. It draws two networks: company to agent, and company to owner.

This project models the rules behind those stages as pure Dafny functions and proves what they promise. The rules covered are:
- listing extraction;
- marker-based field extraction and its sentinels;
- URL templating and recovery of the ID from a URL, which form a round trip;
- removal of the address after a carriage return;
- the inner join;
- the sentinel filter, the graph edges and the node sizes.

Every one of these rules is expression code in the source: splits, comprehensions and a pandas merge. So the model is made of datatypes, functions and lemmas. It has no classes and no loops.

Modules, one per file:
- `Wrappers` holds `Option` and `Result`. A `None` or `Err` stands for the Python exception the source would raise.
- `Strings` models Python's `str.split(sep)`. Pieces are cut at non-overlapping occurrences, scanned left to right. `Piece(s, sep, k)` is `split(sep)[k]`, where `None` means IndexError, and `Before` is `split(sep)[0]`. The module proves that joining the pieces with the separator gives the text back, and it has lemmas about first occurrences.
- `Decimal` models `str(n)` and `int(s)` on digit text. It proves the round trip in both directions.
- `Listing` models `companies_spider.parse`: the `(ID, Company_Name)` pairs taken from the search response rows.
- `Detail` models `owner_spider.parse`: the agent and owner fields, their precedence and their sentinels.
- `Urls` models `create_urls` with the detail URL template, and the recovery of an ID from a URL in `final_file`.
- `Merge` models the rest of `final_file`: the column passes, the address stripping and the join.
- `Graph` models the rules of `graph_plot`: the filter, the edges, the node lists and the node sizes.
- `Pipeline` runs the chain end to end on a two-company example.

The sentinels follow the code's casing. The agent sentinel is "Not found" (lower-case "f"). The owner sentinel is "Not Found" (upper-case "F"). The example in `Pipeline` uses these strings, so the graph filter drops the sentinel cells. With an all-lower-case "not found", the owner filter would not drop them.

The code cuts a field at the first `</VALUE><ALERT_YN>` after the opening marker. But the field is `split(open)[1]`, so it also ends at any repeat of the opening marker. `Detail.FieldCut` states this exact cut: the text up to the earlier of the two markers. It is not "the text between the opening and closing markers" in general.

## Model

| member | source | states |
|---|---|---|
| Strings.Split | companies/companies/spiders/companies_spider.py:79 | `str.split` always yields at least one piece |
| Strings.SplitJoin | companies/companies/spiders/companies_spider.py:79 | joining the pieces of `s.split(sep)` with `sep` gives back `s` |
| Strings.SplitPiecesFree | companies/companies/spiders/companies_spider.py:79 | no piece of `s.split(sep)` contains `sep` |
| Strings.Find | companies/companies/spiders/companies_spider.py:79 | the search finds nothing exactly when `sep` does not occur; otherwise it finds the first occurrence |
| Strings.BeforeSpec | companies/companies/spiders/companies_spider.py:112 | `split(sep)[0]` is a prefix without `sep`; it equals `s` iff `sep` does not occur, otherwise it ends where `sep` first begins; it is idempotent |
| Strings.SecondPiece | companies/companies/spiders/companies_spider.py:79 | `split(sep)[1]` exists iff `sep` occurs, and is then the text after the first `sep` up to the next one |
| Listing.ParseListing | companies/companies/spiders/companies_spider.py:38-44 | one `(ID, Company_Name)` pair per response row, in row order, the name being the first TITLE entry; the result is an error iff some row has no TITLE or an empty one, and the error is that row's |
| Detail.Field | companies/companies/spiders/companies_spider.py:79 | `split(open)[1].split(CLOSE)[0]` exists exactly when the opening marker occurs (otherwise IndexError), and holds no closing marker; `FieldCut` states where it is cut |
| Detail.FieldFound | companies/companies/spiders/companies_spider.py:79 | once a marker occurs, its field exists, holds neither the marker nor the closing marker, and is cut at a marker or at the end of the page |
| Detail.CloseOverlapsNoMarker | companies/companies/spiders/companies_spider.py:79-86 | the closing marker cannot overlap itself or any of the three opening markers |
| Detail.FieldCut | companies/companies/spiders/companies_spider.py:79 | the field is the text after the marker's first occurrence, up to the earliest following closing marker or repeat of the marker |
| Detail.Agent | companies/companies/spiders/companies_spider.py:78-81 | the agent is "Not found" when its marker is absent, and otherwise holds no closing marker; `AgentExtraction` gives the exact cut |
| Detail.AgentExtraction | companies/companies/spiders/companies_spider.py:78-81 | the agent is "Not found" when its marker is absent; otherwise it is the cut after the first marker, and holds neither marker |
| Detail.Owner | companies/companies/spiders/companies_spider.py:82-88 | the owner is "Not Found" when both owner markers are absent, and otherwise holds no closing marker; `OwnerExtraction` gives the precedence |
| Detail.OwnerExtraction | companies/companies/spiders/companies_spider.py:82-88 | "Owner Name" decides whenever it occurs; "Owners" is read only when it is absent; "Not Found" only when both are absent |
| Decimal.NatToString | companies/companies/spiders/companies_spider.py:60 | an id is printed as digits with no leading zero |
| Decimal.ParseNat | companies/companies/spiders/companies_spider.py:111 | `int()` on digit text, None for ValueError; its meaning is stated by `ParseShow` and `ShowParse` |
| Decimal.ParseShow | companies/companies/spiders/companies_spider.py:111 | `int(str(n)) == n` |
| Decimal.ShowParse | companies/companies/spiders/companies_spider.py:111 | `str(int(s)) == s` for canonical digit text, so distinct texts give distinct ids |
| Urls.Format | companies/companies/spiders/companies_spider.py:60 | filling the single `{}` lengthens the template by the argument's length less the two braces; `FormatSpec` states where the argument goes |
| Urls.FormatSpec | companies/companies/spiders/companies_spider.py:60 | formatting a template with one `{}` puts the argument in its place |
| Urls.CreateUrls | companies/companies/spiders/companies_spider.py:46-61 | one URL per id; its contents are stated by `CreateUrlsSpec` and `CreateUrlsRoundTrip` |
| Urls.CreateUrlsSpec | companies/companies/spiders/companies_spider.py:46-61 | one URL per id, in order, each the template with `{}` replaced by the id's text |
| Urls.IdText | companies/companies/spiders/companies_spider.py:110 | the id text exists exactly when the URL contains "business/" (otherwise IndexError), and holds no "/false" |
| Urls.IdFromUrl | companies/companies/spiders/companies_spider.py:110-111 | IndexError exactly when the URL lacks "business/"; `UrlRoundTrip` gives the id back for every URL `create_urls` builds |
| Urls.IdTextOfDetailUrl | companies/companies/spiders/companies_spider.py:110 | the id text of a detail URL is the digit text between "business/" and "/false" |
| Urls.UrlRoundTrip | companies/companies/spiders/companies_spider.py:68 | the URL `create_urls` builds from the detail template for an id gives that id back in `final_file` |
| Urls.CreateUrlsRoundTrip | companies/companies/spiders/companies_spider.py:59-60 | every URL built for a list of ids gives back its own id, in order |
| Merge.StripAddress | companies/companies/spiders/companies_spider.py:112-114 | the stripped text is a prefix with no carriage return; `StripAddressSpec` gives the rest |
| Merge.StripAddressSpec | companies/companies/spiders/companies_spider.py:112-114 | the stripped name is a prefix with no carriage return, is unchanged when there is none, ends where the first one begins, and is idempotent |
| Merge.IdTexts | companies/companies/spiders/companies_spider.py:110 | the id column exists iff every URL has a "business/" segment; row i holds the text of URL i; otherwise the error is IndexError |
| Merge.ParseIds | companies/companies/spiders/companies_spider.py:111 | the integer column exists iff every text parses; row i holds the value of text i; otherwise the error is ValueError |
| Merge.CleanDetailsSpec | companies/companies/spiders/companies_spider.py:110-115 | the detail table exists iff every URL yields an id; row i carries URL i's id and its stripped agent and owner; IndexError is raised iff some URL lacks "business/" |
| Merge.CleanDetails | companies/companies/spiders/companies_spider.py:110-115 | the cleaned detail table; its contract is stated by `CleanDetailsSpec` |
| Merge.MatchesMembers | companies/companies/spiders/companies_spider.py:117 | the merged rows of one listing row are the detail rows with its id |
| Merge.Join | companies/companies/spiders/companies_spider.py:117 | the inner join on ID; its contract is stated by `JoinMembers`, `JoinMultiplicity` and `JoinSize` |
| Merge.JoinMembers | companies/companies/spiders/companies_spider.py:117 | a row is in the merge iff it combines a listing row and a detail row with equal ID |
| Merge.JoinDropsUnmatched | companies/companies/spiders/companies_spider.py:117 | an id missing from either table produces no merged row |
| Merge.JoinMultiplicity | companies/companies/spiders/companies_spider.py:117 | an id appears in the merge (listing rows with it) × (detail rows with it) times |
| Merge.JoinOnePerId | companies/companies/spiders/companies_spider.py:117 | with unique ids on both sides, an id present in both tables yields exactly one row, and otherwise none |
| Merge.JoinSize | companies/companies/spiders/companies_spider.py:117 | with unique ids on both sides, the merge is no longer than either table |
| Merge.FinalFile | companies/companies/spiders/companies_spider.py:108-118 | the final table; its contract is stated by `FinalFileSpec` |
| Merge.FinalFileSpec | companies/companies/spiders/companies_spider.py:108-118 | final_file returns a table exactly when every URL yields an id; a row is in it exactly when it pairs a listing row with a cleaned detail row whose URL yields the same ID; IndexError is raised iff some URL lacks "business/" |
| Graph.Kept | companies/companies/spiders/companies_spider.py:132 | the filter keeps exactly the rows whose field is not the sentinel, and no more rows than it was given |
| Graph.Unique | companies/companies/spiders/companies_spider.py:133-134 | `unique()` keeps each value once, and loses none |
| Graph.Targets | companies/companies/spiders/companies_spider.py:133 | the distinct agents (owners, line 152) of the kept rows; `TargetsMembers` states its members and `Unique` its distinctness |
| Graph.TargetsMembers | companies/companies/spiders/companies_spider.py:133 | the agent list holds exactly the agents of the kept rows |
| Graph.Edges | companies/companies/spiders/companies_spider.py:136 | the edges of the company-agent (company-owner, line 154) graph; `GraphExcludesSentinel` states which rows give edges |
| Graph.GraphExcludesSentinel | companies/companies/spiders/companies_spider.py:132-136 | an edge exists iff it comes from a kept row; the sentinel is never an agent node, and is a node at all only if a company bears that name |
| Graph.Degree | companies/companies/spiders/companies_spider.py:138 | networkx's degree, a self-loop counted twice; `DegreeCountsCompanies` ties it to the number of linked companies |
| Graph.NodeSizes | companies/companies/spiders/companies_spider.py:138 | 100 × each target's degree, as written; `SizesCountCompanies` and `SharedNameInflatesSize` state when it is and is not 100 × the linked companies |
| Graph.CompanySizes | companies/companies/spiders/companies_spider.py:138 | 100 × the number of distinct companies linked to each target, the evidently intended size; `SizesCountCompanies` ties it to the as-written size |
| Graph.DegreeCountsCompanies | companies/companies/spiders/companies_spider.py:136-138 | when no company is named `v`, the degree of `v` is the number of distinct companies linked to it |
| Graph.SizesCountCompanies | companies/companies/spiders/companies_spider.py:151-156 | when no company name is also a target, each node size is 100 × the number of distinct linked companies |
| Graph.SharedNameInflatesSize | companies/companies/spiders/companies_spider.py:136-138 | a company that is also another company's agent is sized 200 although only one company names it |
| Pipeline.MergeTwoCompanies | companies/companies/spiders/companies_spider.py:108-118 | the two-company example merges to its two rows, with addresses cut off and sentinels kept |
| Pipeline.GraphsTwoCompanies | companies/companies/spiders/companies_spider.py:132-154 | the merged example gives one agent edge (X Corp, Jane Doe) and one owner edge (Xylo Inc, John Roe) |
| Pipeline.CrawlTwoCompanies | companies/companies/spiders/companies_spider.py:59-69 | the URLs `create_urls` builds for ids 1 and 2 carry the example through the merge |

## Left out

- Network I/O is not modelled: the Scrapy requests, headers and payload, and the crawl's scheduling and concurrency. The search response is given as a list of rows, and each detail page as its text.
- JSON decoding is left out. The response's `rows` mapping is taken as a list of (key, fields) entries in the mapping's order.
- CSV files are left out: their writing, their appending in mode 'a', and their reading back. In particular, the model does not cover pandas turning the string keys of the listing into integer IDs when `company_info.csv` is read back. `Merge` starts from integer IDs.
- Plotting is left out: figure size, spring layout, colours, labels and the saved image. Line 165 draws the owner labels on the agent graph `G`; this is drawing only, and is not modelled.
- The module-level script at lines 170-175 is left out.
- Urls.Format: only templates with a single `{}` and no other brace are modelled. The rest of Python's format mini-language is left out.
- Decimal.ParseNat: `int()` also accepts a sign, surrounding whitespace and underscores between digits. The model reports ValueError for these.
- Decimal.ParseNat: negative ids are not modelled. Ids are natural numbers.
- Decimal.ParseNat: ids are unbounded. `astype(int)` converts to a fixed-width integer (64-bit, or 32-bit on Windows with older numpy) and raises OverflowError for an id text outside that range. For such ids the model's `IdFromUrl` returns an id where the source raises, and `UrlRoundTrip` and `CreateUrlsRoundTrip` hold for ids whose round trip fails in the source.
- Decimal.ParseNat: only ASCII digits are modelled. `int()` also accepts other Unicode decimal digits (such as Arabic-Indic ones), for which the model reports ValueError.
- Merge.CleanDetails: pandas NaN cells (an empty CSV field) are not modelled. Every cell is text.
- Merge.CleanDetails: only the ID, Agent and Owner columns are modelled. The column drops and renames are not.
- Merge.Join: the merged row order is modelled as listing-row major, each listing row followed by its matches in detail order. That is pandas' order for an inner merge in the common case; its exact ordering rules are not modelled.
- Graph.Degree: edges are a set, as in networkx's simple `Graph`. When several rows repeat one company–target pair, the later rows' attributes are not modelled.

## Findings

| source | as written | input that shows it | evidently intended | confidence | as-written member | corrected member |
|---|---|---|---|---|---|---|
| companies/companies/spiders/companies_spider.py:136-138 | node size is 100 × `G.degree(agent)` in the graph of all companies and agents, so a company that is also an agent adds its own edges (and a self-loop counts twice) | "X Corp" has agent "X Agents LLC", and "X Agents LLC" is itself a company with agent "Jane Roe": "X Agents LLC" is sized 200 | 100 × the number of distinct companies naming that agent (owner) | not executed | Graph.SharedNameInflatesSize | Graph.SizesCountCompanies |
