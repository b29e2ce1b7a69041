# CryptoBot signal rules and request signing, in Dafny

This project models the decision logic of a small crypto-trading alert bot.
The bot polls a candle (kline) endpoint, computes RSI, Williams %R and MACD
on the candles, and classifies the latest bar as LONG, SHORT or no signal.
When there is a signal it formats an alert with an entry price, a
take-profit and a stop-loss, a MACD direction label and the coin name, and
sends it to a Telegram chat. A second script signs its kline requests to an
exchange API: it builds a canonical `key=value&...` query string from the
parameters in ascending key order, computes an HMAC-SHA256 over it, and
stores the digest back into the parameter dict under `"signature"`.

The indicator values are inputs (they come from a charting library), and
the HMAC is a function-valued parameter. Everything else in those rules is
modelled as it is written, apart from what "## Left out" lists:

- `Strings` (`strings.dfy`): the Python `str` operations the rules rely on.
  These are `sep.join`, its inverse `split`, ASCII `upper()`,
  `replace(pat, "")`, `str()` of an integer, and the code-point ordering
  `sorted` uses.
- `Dicts` (`dicts.dfy`): a Python dict as its entry list in insertion order
  (keys distinct). It covers `d[k] = v` (`Assign`) and `sorted(d.items())`
  (`SortByKey`, an insertion sort).
- `BotSignal` (`bot_signal.dfy`): `analyze`'s decision (`Analyze`) and the
  content of `format_message` (`TradeLevels`, `DirectionLabel`,
  `SignalName`, `CoinName`, `FormatMessage`).
- `RequestSigning` (`request_signing.dfy`): the query string (`Query`), the
  dict the request builder fills (`ParamDict`, updated in place) and
  `sign_request` (`SignRequest`).

Three points about the code that the model makes explicit:

- A bar meeting both the long and the short conditions would get LONG,
  because the code tests LONG first with an `elif`. That precedence never
  matters: `TieBreakIrrelevant` shows the rule equals the symmetric one that
  tests SHORT first and gives no signal on a tie.
- The RSI and Williams %R bands of the two setups overlap (RSI 45–55 with
  %R −80 to −20 meets both; see `BandsOverlap`). It is the opposite MACD
  crossing tests that keep LONG and SHORT apart.
- The coin name is the upper-cased symbol with "USDT" deleted wherever it
  stands (`CoinNameSplit`; "usdtbtc" gives "BTC"). Python's `replace` makes
  a single left-to-right pass, so a "USDT" formed by a deletion survives:
  "uusdtsdt" gives "USDT" (`CoinNameSinglePass`). For the bot's own pairs
  ("dogeusdt" and the like) the result is the upper-cased base asset
  (`CoinNameOfPlainPair`, `CoinNameExample`).

## Model

| member | source | states |
|---|---|---|
| `BotSignal.Analyze` | bot_signal_main.py:45-63 | LONG exactly when 45 < RSI < 65, −80 < %R < −20 and MACD crossed its signal line upwards between the previous and the latest bar; SHORT exactly when 35 < RSI < 55, %R < −20 and MACD crossed downwards (no "and not LONG" needed, the crossings exclude each other); no signal exactly when neither holds; a signal implies MACD differs from its signal line on both bars |
| `BotSignal.TieBreakIrrelevant` | bot_signal_main.py:48-62 | LONG's `elif` precedence never decides: both setups never hold at once, and the rule equals the one that tests SHORT first and gives no signal on a tie |
| `BotSignal.BandsOverlap` | bot_signal_main.py:50-58 | a bar with RSI 50 and %R −50 lies in both the long and the short RSI/%R bands |
| `BotSignal.NoCrossNoSignal` | bot_signal_main.py:52-60 | if MACD equals its signal line on the latest or the previous bar, there is no signal |
| `BotSignal.TradeLevels` | bot_signal_main.py:66-68 | entry is the close; for LONG at a positive price stop < entry < target, for any other signal target < entry < stop; a zero price gives zero levels; the target is always twice as far from the entry as the stop, on the opposite side |
| `BotSignal.TradeLevelsScale` | bot_signal_main.py:66-68 | scaling the price by k scales entry, target and stop by k (the levels are fixed percentages) |
| `BotSignal.DirectionLabel` | bot_signal_main.py:69 | the label is one of "вверх"/"вниз", and "вверх" exactly when MACD is above its signal line |
| `BotSignal.LabelAgreesWithSignal` | bot_signal_main.py:49-69 | a LONG decision always gets "вверх" and a SHORT decision "вниз" |
| `BotSignal.SignalName` | bot_signal_main.py:73 | the message shows "LONG" exactly for LONG and "SHORT" exactly for SHORT |
| `BotSignal.CoinName` | bot_signal_main.py:71 | the coin name is never longer than the symbol; what it is follows from `CoinNameSplit` (every "usdt" dropped, the text around it kept) and `RemoveAllFirstOccurrence` |
| `BotSignal.RemoveQuoteSplit` | bot_signal_main.py:71 | deleting "USDT" from x + "USDT" + y gives the deletion from x followed by the deletion from y: the middle "USDT" goes and no occurrence straddles either join |
| `BotSignal.RemoveQuoteSuffix` | bot_signal_main.py:71 | deleting "USDT" from x + "USDT" equals deleting it from x |
| `BotSignal.CoinNameSplit` | bot_signal_main.py:71 | the coin name of x + "usdt" + y is the coin name of x followed by that of y, wherever the "usdt" stands |
| `BotSignal.CoinNameLeadingQuote` | bot_signal_main.py:71 | "usdtbtc" is shown as "BTC" |
| `BotSignal.CoinNameOfPair` | bot_signal_main.py:71 | the coin name of base + "usdt" is the coin name of base |
| `BotSignal.CoinNameOfPlainPair` | bot_signal_main.py:71 | when the upper-cased base has no "USDT", the coin name of base + "usdt" is the upper-cased base |
| `BotSignal.CoinNameExample` | bot_signal_main.py:14-71 | "dogeusdt" is shown as "DOGE" |
| `BotSignal.CoinNameSinglePass` | bot_signal_main.py:71 | "uusdtsdt" is shown as "USDT": one left-to-right pass can leave a "USDT" behind |
| `BotSignal.RemoveSinglePass` | bot_signal_main.py:71 | the single pass turns "UUSDTSDT" into "USDT" |
| `BotSignal.FormatMessage` | bot_signal_main.py:65-85 | the message's entry is the close, its direction is "вверх" exactly when MACD is above its signal line, and its target is twice as far from the entry as its stop |
| `BotSignal.MessageConsistent` | bot_signal_main.py:45-85 | at a positive price, a LONG message reads "LONG", points up and has stop < entry < target; a SHORT one reads "SHORT", points down and has target < entry < stop |
| `Strings.Upper` | bot_signal_main.py:71 | same length; no ASCII lower-case letter is left; other characters are unchanged; lower-case letters move to their capitals |
| `Strings.UpperConcat` | bot_signal_main.py:71 | upper-casing distributes over concatenation |
| `Strings.UpperIdempotent` | bot_signal_main.py:71 | upper-casing twice is upper-casing once |
| `Strings.RemoveAll` | bot_signal_main.py:71 | deleting a pattern never lengthens the string |
| `Strings.RemoveAllKeepsCharacters` | bot_signal_main.py:71 | what is left after deleting is a sub-multiset of the original characters |
| `Strings.RemoveAllAbsent` | bot_signal_main.py:71 | a string without the pattern is left unchanged |
| `Strings.RemoveAllFirstOccurrence` | bot_signal_main.py:71 | the first occurrence of the pattern is deleted and the text before it kept: if no occurrence starts inside x, deleting from x + pattern + y gives x followed by the deletion from y |
| `Strings.Join` | logic_of_analyze.py:23 | joining n ≥ 1 parts that do not contain the separator puts exactly n − 1 separators in the result |
| `Strings.Split` | logic_of_analyze.py:23 | splitting yields one piece more than there are separators, and no piece contains the separator |
| `Strings.SplitJoin` | logic_of_analyze.py:23 | splitting a join on the same separator returns the parts, when no part contains it |
| `Strings.Less` | logic_of_analyze.py:23 | Python's `<` on the keys `sorted` compares: a prefix of a string sorts before it exactly when it is shorter, and a smaller string never starts with a larger character |
| `Strings.LessIrreflexive` | logic_of_analyze.py:23 | no key sorts before itself |
| `Strings.LessTransitive` | logic_of_analyze.py:23 | the key order is transitive |
| `Strings.LessTotal` | logic_of_analyze.py:23 | any two distinct keys are ordered one way or the other |
| `Strings.LessIsStrictTotalOrder` | logic_of_analyze.py:23 | the code-point order `sorted` uses on keys is a strict total order |
| `Strings.DigitChar` | logic_of_analyze.py:23 | a digit value becomes a decimal digit character denoting it |
| `Strings.NatDecimal` | logic_of_analyze.py:23 | `str(n)` of a natural is non-empty and all decimal digits; the only text starting with "0" is "0" itself, which is the text of 0 |
| `Strings.DecimalRoundTrip` | logic_of_analyze.py:23 | reading back the digits of `str(n)` gives n |
| `Strings.IntDecimal` | logic_of_analyze.py:23 | `str(n)` of an integer is non-empty and all digits, except a leading minus sign that is there exactly when n is negative; for n ≥ 0 the digits denote n, for n < 0 the digits after the minus denote −n; no leading zero except in "0" itself |
| `Dicts.Keys` | logic_of_analyze.py:23 | the key list has one key per entry, in entry order |
| `Dicts.ToMap` | logic_of_analyze.py:23 | the mapping's domain is exactly the dict's keys |
| `Dicts.ToMapMembership` | logic_of_analyze.py:23 | with distinct keys, an entry is in the dict exactly when the mapping sends its key to its value |
| `Dicts.Assign` | logic_of_analyze.py:25 | after `d[k] = v` the keys keep their order, with k appended only if it was new |
| `Dicts.AssignKeepsDistinct` | logic_of_analyze.py:25 | `d[k] = v` keeps keys distinct |
| `Dicts.AssignUpdatesMap` | logic_of_analyze.py:25 | after `d[k] = v` the dict maps k to v and every other key to its old value |
| `Dicts.Insert` | logic_of_analyze.py:23 | inserting adds exactly the one entry (as multisets) |
| `Dicts.InsertAscending` | logic_of_analyze.py:23 | inserting an entry with a new key into a strictly ascending list keeps it strictly ascending |
| `Dicts.SortByKey` | logic_of_analyze.py:23 | sorting is a permutation of the entries |
| `Dicts.SortByKeyAscending` | logic_of_analyze.py:23 | a dict's items sort into strictly ascending key order |
| `Dicts.AscendingUnique` | logic_of_analyze.py:23 | two strictly ascending lists with the same entries are equal |
| `Dicts.SortByKeySameEntries` | logic_of_analyze.py:23 | sorting keeps the number of entries and exactly the same entries |
| `Dicts.SortByKeyOrderIndependent` | logic_of_analyze.py:23 | dicts with equal entries sort to the same list, whatever their insertion order |
| `RequestSigning.Render` | logic_of_analyze.py:23 | an integer value renders as a non-empty string without `&` or `=` |
| `RequestSigning.Pair` | logic_of_analyze.py:23 | a pair contains `=` and is the key, one character and the value long |
| `RequestSigning.PairKeyRecoverable` | logic_of_analyze.py:23 | for a key without `=`, the text before the pair's first `=` is the key |
| `RequestSigning.Pairs` | logic_of_analyze.py:23 | one pair per entry, in entry order |
| `RequestSigning.Query` | logic_of_analyze.py:23 | the query string is empty exactly when the dict is |
| `RequestSigning.QueryLayout` | logic_of_analyze.py:23 | for a non-empty dict whose keys and values have no `&`, the query splits on `&` into exactly one `key=value` pair per entry. The pairs come in strictly ascending key order, each key once, with exactly n − 1 separators |
| `RequestSigning.QueryOrderIndependent` | logic_of_analyze.py:23 | dicts with equal entries give the same query string regardless of insertion order |
| `RequestSigning.SignatureOrderIndependent` | logic_of_analyze.py:23-24 | the signature depends only on the secret and the dict's entries |
| `RequestSigning.OldSignatureIsSigned` | logic_of_analyze.py:23-25 | a "signature" entry already present has its pair in the signed string |
| `RequestSigning.ParamDict.constructor` | logic_of_analyze.py:30-35 | a dict built from a literal with distinct keys holds exactly those entries in the order written, and is valid |
| `RequestSigning.KlineParams` | logic_of_analyze.py:30-35 | `get_kline`'s dict is a new valid dict holding symbol, interval, limit and timestamp in that order, with no "signature" key yet, so signing appends it last |
| `RequestSigning.ParamDict.Put` | logic_of_analyze.py:25 | `d[k] = v` in place: the dict stays valid, maps k to v and every other key as before |
| `RequestSigning.SignRequest` | logic_of_analyze.py:22-26 | the same dict object is returned. Every entry other than "signature" is unchanged and keeps its position. "signature" maps to the HMAC of the secret and the query string built from the dict as it was on entry, replacing any old value in place or else appended last |

## Left out

- Indicator computation (RSI, Williams %R and MACD at bot_signal_main.py:39-43) is a foreign library's floating-point code. Its outputs are the `Bar` inputs of `Analyze`.
- Float semantics of the indicator values are not modelled. Values are `real`, so there is no NaN. A NaN reading would make every comparison false in the source, which gives no signal.
- `analyze` reading the last two rows with `iloc[-1]`/`iloc[-2]` is not modelled: the two bars are parameters. A frame with fewer than two rows raises in the source.
- Candle fetching and frame construction (`get_klines`, `get_kline`) are left out. They are network I/O and pandas parsing.
- Telegram delivery (`bot.send_message`, `send_debug_telegram`) is left out as outbound I/O.
- The polling loop (`main_loop`) with its five-minute sleep is left out as scheduling plumbing. So is its "send only when there is a signal" gate.
- The debug-report `analyze` in logic_of_analyze.py:47-71 is left out. It only assembles text around I/O results and a printed frame.
- The wall-clock timestamp parameter is left out as environment input.
- The HMAC-SHA256 digest and its hex encoding are not modelled. They are the `hmacSha256` parameter of `SignRequest`, which also stands for the UTF-8 encoding of the secret and the query.
- BotSignal.TradeLevels: `round(..., 6)` of entry, target and stop is not modelled, so the levels are exact reals. The ordering stop < entry < target therefore holds only before rounding. At prices near 1e-5, such as those of `pepeusdt` (one of the bot's symbols, bot_signal_main.py:14), all three round to the same six-decimal value in the source.
- BotSignal.FormatMessage: the message text layout and `round(..., 2)` of RSI and %R are not modelled. The model gives the message's fields, not its text.
- Strings.Upper: covers ASCII letters only. Python's `upper()` also maps other scripts and may change the length ("ß" to "SS").
- Dicts.SortByKey: orders entries by key alone. It ignores Python's fall-back to comparing values, which never happens because dict keys are distinct.
- RequestSigning.Render: covers the text and integer values the request builder stores. Other Python types and their `str()` forms are not modelled.
