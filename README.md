# FlakeRank bot core, modelled in Dafny

FlakeRank is a chat bot that ranks "fractals" through a remote paged API. This project
models the four pieces of its logic that are not framework wiring:

- `Fractals` (`fractals.dfy`): `url_from_wts`. It turns the six integer weights of
  `/fractals browse` into proportions (exact reals) and builds the query URL. It also holds
  the faction colour table `fac_to_color` and the colour that a result card gets.
- `FractalIterators` (`fractal_iterators.dfy`): the two result generators,
  `unlim_fractal_iterator` and `search_fractal`. Each is a class `PageIterator` with the
  generator's `page` counter and the unread items of the current page. The remote API is a
  function parameter `fetch` from page URL to `Option<seq<Item>>`, where `None` is the
  non-2xx error that `raise_for_status=True` raises.
- `YuyoUtils` (`yuyo_utils.dfy`): the delete button. It parses the owner ids carried in the
  button's own custom id (`AUTHOR_DELETE_BUTTON:` plus comma-separated ids) and decides
  between deleting the message and an ephemeral "You do not own this message" reply.
- Helpers: `Wrappers` (Option, Result), `Text` (Python's `str.split` / `str.join` for a
  one-character separator), `Numerals` (`str(n)` and `int(s)` on decimal digits).

Inputs the model does not compute are parameters:
- the endpoint (`Config.s.FLAKE_ENDPOINT`);
- Python's float-to-text conversion (`render: real -> string`);
- the HTTP fetch (`fetch`).

Behaviour the model takes from the code:
- Weights are any integers, as the slash options allow, and not only non-negative ones. A
  zero total is the only error: it is the `ZeroDivisionError`, modelled as
  `Failure(ZeroTotal)`, and no uniform fallback exists.
- A generator never runs out by itself (`while True`). It ends only when a fetch fails.
  After that, further steps report `Stopped`, the way a finished Python generator raises
  `StopAsyncIteration`.
- A malformed delete id is not ignored quietly. `Snowflake(...)` raises inside the
  callback, so no response is sent (`MalformedId`).
- `removeprefix` leaves an id without the prefix unchanged. The callback is reached only
  for ids that start with the prefix (`DispatchDeleteButton`).

## Model

| member | source | states |
|---|---|---|
| `Fractals.Normalize` | modules/fractals.py:14-21 | fails exactly when the weights sum to zero; otherwise each share times the total is its weight, with altitude←wts[5], spin←wts[4], velocity←wts[3], purity←wts[2], power←wts[1], faction←wts[0] |
| `Fractals.ProportionsSumToOne` | modules/fractals.py:15-21 | for any weights with a non-zero total, negative ones included, the six shares sum to exactly 1 |
| `Fractals.ScalingInvariance` | modules/fractals.py:14-21 | multiplying every weight by the same non-zero k leaves the outcome unchanged (the help text's "1 or 100") |
| `Fractals.PercentagesExample` | modules/fractals.py:167-170 | weights 25/25/15/15/10/10 give exactly 0.25/0.25/0.15/0.15/0.1/0.1 |
| `Fractals.MostlyAltitudeExample` | modules/fractals.py:163-166 | weights faction 0, power 1, purity 5, velocity 1, spin 1, altitude 10 give 0, 1/18, 5/18, 1/18, 1/18, 10/18 |
| `Fractals.UrlFromWeights` | modules/fractals.py:14-30 | no URL exactly when the total is zero; otherwise the URL starts with the endpoint followed by `?` |
| `Fractals.UrlQueryFields` | modules/fractals.py:23-29 | if rendered numbers hold no `&`, the query splits on `&` into exactly mul_altitude, mul_spin, mul_velocity, mul_purity, mul_power, mul_faction in that order, each with weight/total, and no trailing `&` |
| `Fractals.FacToColor` | modules/fractals.py:33-43 | each of the four colours comes back iff the argument is exactly "tri", "quad", "penta" or "hexa"; gray comes back iff it is none of them |
| `Fractals.FacToColorIsCaseSensitive` | modules/fractals.py:33-43 | "Tri", "Quad", "Penta", "Hexa" and "TRI" all get gray |
| `Fractals.TitleIdempotent` | modules/fractals.py:50 | the model of `str.title()` changes nothing when applied a second time |
| `Fractals.EmbedColorAsWrittenIsAlwaysGray` | modules/fractals.py:50 | as written, a card's colour is gray for every faction string |
| `Fractals.EmbedColor` | modules/fractals.py:50 | corrected colour choice: non-gray iff the faction is one of the four table keys |
| `FractalIterators.PageOfUrl` | modules/fractals.py:72 | the page number can be read back from the end of the page URL (both URL shapes) |
| `FractalIterators.PageUrlInjective` | modules/fractals.py:84 | two pages of one query have the same URL only if they are the same page |
| `FractalIterators.PageUrlsAt` | modules/fractals.py:69-77 | the request log for n pages holds the URL of page i+1 at position i, so it is the URLs of pages 1..n in order |
| `FractalIterators.PageUrlsPrefix` | modules/fractals.py:69-77 | the request log only grows: the log for m pages is a prefix of the log for n ≥ m pages |
| `FractalIterators.PageUrlsDistinct` | modules/fractals.py:69-77 | no page URL appears twice in the request log |
| `FractalIterators.YieldsPrefix` | modules/fractals.py:74-76 | the items of pages 1..m are a prefix of the items of pages 1..n when m ≤ n |
| `FractalIterators.PageIterator.Unlimited` | modules/fractals.py:68-69 | a fresh weighted generator: page 1, nothing fetched, nothing yielded |
| `FractalIterators.PageIterator.SearchByName` | modules/fractals.py:80-81 | a fresh name-search generator: page 1, nothing fetched, nothing yielded |
| `FractalIterators.EmptyPagesYieldNothing` | modules/fractals.py:74-77 | pages that answer with no items add nothing to the items of the pages before them |
| `FractalIterators.SkipEmptyPages` | modules/fractals.py:69-77 | from page `start`, requests consecutive pages until one fails or holds items; returns that page and its response, every page before it from `start` on was empty, and the URLs requested extend the log of pages 1..start-1 to the log of pages 1..p |
| `FractalIterators.SkipUpToReaches` | modules/fractals.py:70-77 | what `SkipEmptyPages` returns is what the loop as written reaches with exactly the requests up to that page |
| `FractalIterators.SkipUpToAgrees` | modules/fractals.py:70-77 | with enough requests to reach a page that fails or holds items, the loop as written stops at the first such page, all pages before it being empty |
| `FractalIterators.EmptyPagesNeverEnd` | modules/fractals.py:70-77 | as written, when every page from `start` on answers with no items, the loop has not ended after any number of requests |
| `FractalIterators.IntendedTurn` | modules/fractals.py:74-77 | corrected turn: the items of a page that holds some, the end of the results exactly on a page with none, the error exactly on a failed fetch |
| `FractalIterators.IntendedTurnEndsEmptyRuns` | modules/fractals.py:70-77 | the corrected turn agrees with the loop as written on a page that fails or holds items, and on an endless run of empty pages ends after one request where the loop as written never ends |
| `FractalIterators.PageIterator.NoEndOnlyOnEmptyRuns` | modules/fractals.py:70-77 | no page ends the loop exactly when every page from the next one on answers with no items, the one case `Next` does not cover |
| `FractalIterators.PageIterator.Settle` | modules/fractals.py:71-77 | after reaching page p, the counter is p and the generator holds exactly that page's items or has ended with its error, keeping the generator invariant |
| `FractalIterators.PageIterator.FillCurrent` | modules/fractals.py:69-77 | from a used-up page, the counter moves on (not before page 1) past empty pages only; on success the new items are that page's non-empty `data`, on failure the generator has ended; the request log is exactly pages 1..page in order; the invariant is kept |
| `FractalIterators.FirstPageFailureScenario` | modules/fractals.py:80-89 | a name search whose first page fails reports the failure of page 1 on the first step and Stopped on the second |
| `FractalIterators.PageIterator.TakeItem` | modules/fractals.py:75-76 | yields the first unread item of the current page and appends it to the yielded history |
| `FractalIterators.PageIterator.Next` | modules/fractals.py:68-77 | no fetch while the current page has items; a failed fetch ends the generator and later steps report Stopped; pages skipped over were empty; invariant: the request log only grows and is exactly pages 1, 2, … in order, and yielded items plus the unread rest form the concatenation of the fetched pages' data |
| `YuyoUtils.RemovePrefix` | utils/yuyo_utils.py:13 | strips the prefix once when the string starts with it, and leaves the string unchanged otherwise |
| `YuyoUtils.ParsePieces` | utils/yuyo_utils.py:13 | succeeds iff every piece is a decimal numeral, and keeps each piece's value at its position |
| `YuyoUtils.AuthorIds` | utils/yuyo_utils.py:13 | succeeds iff every comma piece of the prefix-stripped id is a numeral; the set holds exactly the pieces' values |
| `YuyoUtils.DeleteButtonCallback` | utils/yuyo_utils.py:5-25 | exactly one outcome: delete iff the ids parse and the user or one of the member's roles is among them; the "You do not own this message" reply iff they parse and neither is; no response iff they do not parse |
| `YuyoUtils.DispatchDeleteButton` | basic_bot.py:15-19 | the callback runs exactly for custom ids starting with `AUTHOR_DELETE_BUTTON:` |
| `YuyoUtils.TokenRoundTrip` | utils/yuyo_utils.py:13 | the prefix followed by a non-empty list of decimal ids joined with commas parses to exactly the set of those ids |
| `YuyoUtils.ButtonDecides` | utils/yuyo_utils.py:13-25 | a press on a button built for any non-empty owner list reaches the callback, which deletes iff the user or one of the member's roles is listed and otherwise sends the "You do not own this message" reply |
| `YuyoUtils.OrderAndDuplicatesIrrelevant` | utils/yuyo_utils.py:13 | two owner lists with the same set of ids give the same parse |
| `YuyoUtils.BadPieceIsMalformed` | utils/yuyo_utils.py:13 | any piece that is not a non-empty run of digits makes the parse fail |
| `YuyoUtils.BarePrefixIsMalformed` | utils/yuyo_utils.py:13 | the bare prefix (one empty piece) fails to parse |
| `YuyoUtils.TrailingCommaIsMalformed` | utils/yuyo_utils.py:13 | a trailing comma after valid ids makes the parse fail |
| `YuyoUtils.DoublePrefixIsMalformed` | utils/yuyo_utils.py:13 | the prefix is stripped only once: a doubled prefix fails to parse |
| `YuyoUtils.NoMemberMeansUserIdOnly` | utils/yuyo_utils.py:14-18 | without a member, authorisation holds iff the user id is among the owners |
| `YuyoUtils.OwnerNeverNeedsRoles` | utils/yuyo_utils.py:15 | a user whose own id is listed is authorised whatever the member's roles |
| `YuyoUtils.WorkedExampleIds` | utils/yuyo_utils.py:13 | `AUTHOR_DELETE_BUTTON:111,222` parses to exactly the owners {111, 222} |
| `YuyoUtils.WorkedExampleOwner` | utils/yuyo_utils.py:13-22 | on `AUTHOR_DELETE_BUTTON:111,222`, user 111 gets the message deleted |
| `YuyoUtils.WorkedExampleRole` | utils/yuyo_utils.py:13-22 | on `AUTHOR_DELETE_BUTTON:111,222`, user 333 holding role 222 gets the message deleted |
| `YuyoUtils.WorkedExampleStranger` | utils/yuyo_utils.py:13-25 | on `AUTHOR_DELETE_BUTTON:111,222`, user 333 with only role 999 gets the ephemeral "You do not own this message" reply |
| `Text.Split` | utils/yuyo_utils.py:13 | `split(",")` gives at least one piece, no piece holds the separator, and joining the pieces gives the input back |
| `Text.SplitJoin` | utils/yuyo_utils.py:13 | joining a non-empty list of separator-free pieces and splitting again gives the list back |
| `Numerals.ParseNat` | utils/yuyo_utils.py:13 | the id conversion succeeds iff the piece is a non-empty run of ASCII digits |
| `Numerals.ParseDecimal` | modules/fractals.py:72 | reading back the decimal text of n gives n |
| `Numerals.LeadingZeroIgnored` | utils/yuyo_utils.py:13 | a leading zero does not change the value of a numeral: `int("0" + s) == int(s)` |

## Left out

- Session handling by yuyo's `ComponentPaginator` and `ComponentClient.set_executor` (modules/fractals.py:123-129, 143-149) is left out. That covers the author check, the 10-minute timeout and the message-to-session registry. It is library code that is not part of this model.
- The command handlers `fractal_browse_command`, `fractal_search_command` and `fractal_help_command` are left out. That covers default weights of 1, the "Entry not found" reply, the unused random `uid` and the help text. They are slash-command plumbing around the modelled functions, and the first-entry behaviour depends on yuyo code that is not shown.
- `embed_page` is left out, all but its colour choice. It builds hikari embeds, rounds float percentiles and reads the clock. The generators yield the raw items instead of `(UNDEFINED, embed)` pairs.
- basic_bot.py is left out, all but the prefix routing. Bot construction, module loading and the start/stop callbacks are wiring.
- Network, aiohttp sessions and JSON decoding are left out. They become the `fetch` parameter. A missing `data` key or a bad body counts as a failure (`None`), like a non-2xx status.
- Async suspension is left out. Each generator is a sequential state machine, one method call per `anext`.
- `Fractals.Normalize`: the shares are exact reals, not IEEE doubles. Python's float shares can sum to 1 only approximately.
- `Fractals.UrlFromWeights`: float-to-text is the `render` parameter, so the exact digits Python prints are not modelled.
- `FractalIterators.PageIterator.Next`: it requires a page ahead that fails or holds items. On an endless run of empty pages the source keeps fetching forever, and a terminating method cannot express that. `EmptyPagesNeverEnd` states that run as written (see "## Findings"), and `NoEndOnlyOnEmptyRuns` shows it is the only case left out.
- `Numerals.ParseNat`: it accepts only ASCII digits. Python's `int()` inside `Snowflake` also takes surrounding whitespace, `_`, a sign and non-ASCII digits.
- `Fractals.TitleIdempotent`: the model of `str.title()` treats only ASCII letters as cased. Other characters pass through unchanged.
- Neither URL encodes the search name or the endpoint. The source inserts them raw, and so does the model.

## Findings

| source | as written | input that shows it | evidently intended | confidence | as-written member | corrected member |
|---|---|---|---|---|---|---|
| modules/fractals.py:50 | the faction is title-cased before the case-sensitive lookup, whose keys are all lower case | a faction of "tri" becomes "Tri", which gets gray 0x808080 | "tri" gets blue 0x0000FF, and likewise for quad, penta and hexa | not executed; that the four colours can never be reached is proved, and the intent is read from the table's lower-case keys | `Fractals.EmbedColorAsWrittenIsAlwaysGray` | `Fractals.EmbedColor` |
| modules/fractals.py:70-77 | `while True` moves on to the next page after a page that answers with an empty `data`, and stops only on a failed fetch | every page answers 2xx with `data: []`, as a name search with no match or a page past the last one may: pages 1, 2, 3, … are requested for ever, the first entry never arrives, and "Entry not found" (lines 131, 151) is never sent | the generator ends on a page with no items, so the paginator runs out and the handler replies "Entry not found" | not executed; plausible, as it depends on how the remote API answers past its last page, which is not part of this model | `FractalIterators.EmptyPagesNeverEnd` | `FractalIterators.IntendedTurnEndsEmptyRuns` |
