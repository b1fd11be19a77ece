# Giveaway bot core, modelled in Dafny

The bot runs timed giveaways in a Telegram channel. An operator creates a
giveaway over HTTP with a title, a prize, a duration and a number of
winners. The bot posts an announcement whose button carries `join_<id>`.
Subscribers press the button to join. When the timer fires, or when the
admin sends `/pickwinner <id>`, the bot draws the winners at random,
without replacement, from the people who joined.

This project models the part of `bot.js` that decides things:

- `duration.dfy` (module `Duration`): `durationToString`'s split of a
  number of seconds into days, hours, minutes and seconds, using
  JavaScript's `Math.floor` and truncating `%`.
- `records.dfy` (module `Records`): the giveaway and participant records.
- `callback.dfy` (module `CallbackData`): the join button's data. Going
  out, it is `join_` followed by the id. Coming back, it is read with
  `startsWith`, `split("_")[1]` and `parseInt`.
- `winners.dfy` (module `Winners`): `pickWinners`. It is a loop over a
  copy of the participants, proved equal to the recursive specification
  `Draw`. Every random choice comes from an index oracle
  `pick(i, len) < len`. `Math.floor(Math.random() * len)` is shown to be
  such an oracle, with each position chosen on a slice of [0, 1) of
  width 1/len.
- `bot.dfy` (module `GiveawayBot`): class `Bot` owns the `giveaways` list
  and the admin id. It has the create request, the message-id update, the
  join button, `endGiveaway` and `/pickwinner`. Each handler returns an
  outcome datatype in place of the Telegram message it would send.

`Bot.Valid()` is the invariant the handlers keep once it holds. The
giveaway at position i has id i + 1, so ids are distinct. No user appears
twice in one giveaway. Records loaded from the database file need not
satisfy it, so no handler requires it. The handlers that change the store
(`Create`, `SetMessageId`, `Join`) state `old(Valid()) ==> Valid()`.
`EndGiveaway` and `PickWinnerCommand` have no `modifies` clause, so they
cannot change the store at all. `SetMessageId` requires only that its
position names a stored record.

Some behaviour of the code that a reader might not expect, and that the
model keeps:

- A giveaway has no status. Nothing marks it as ended, and a join after
  the end time is accepted.
- Ending a giveaway twice draws again (`EndingTwiceMayRedraw`).
- Creation rejects only falsy fields. A negative duration or winner count
  is accepted. `DurationParts` then has non-positive parts, which in
  general do not add back up to the duration: −60 seconds splits into
  −1 day, −1 hour, −1 minute and 0 seconds (`NegativeParts`,
  `MinusOneMinute`).
- A negative winner count, with participants present, ends with an empty
  winner list (`Drawn([])`).

## Model

| member | source | states |
|---|---|---|
| Duration.FloorDiv | bot.js:36-38 | `Math.floor(a / b)` for b > 0: the quotient q with b·q ≤ a < b·(q+1) |
| Duration.TruncRem | bot.js:37-39 | JavaScript `%` for b > 0: the result differs from a by a multiple of b, and lies in [0, b) for a ≥ 0 and in (−b, 0] for a < 0 |
| Duration.DurationParts | bot.js:35-41 | for seconds ≥ 0, days·86400 + hours·3600 + minutes·60 + seconds equals the input, with 0 ≤ hours < 24, 0 ≤ minutes < 60 and 0 ≤ seconds < 60 |
| Duration.NonNegativeParts | bot.js:36-39 | the div/mod decomposition of a non-negative n is normalized and adds back up to n |
| Duration.NegativeParts | bot.js:36-39 | a negative duration gives negative days and no positive hours, minutes or seconds |
| Duration.MinusOneMinute | bot.js:36-39 | −60 seconds is shown as −1 day, −1 hour, −1 minute and 0 seconds, which do not add back up to −60 |
| Duration.PartsUnique | bot.js:35-40 | any normalized days/hours/minutes/seconds adding up to the duration are exactly the ones computed |
| CallbackData.Decimal | bot.js:82 | the text of a natural number is a non-empty digit string, with no leading zero unless the number is 0 |
| CallbackData.IntText | bot.js:82 | the printed text of an integer is non-empty and starts with `-` exactly for a negative integer; `ParseIntText` reads it back |
| CallbackData.JoinData | bot.js:82 | the button data for a giveaway starts with `join_` |
| CallbackData.LeadingDigits | bot.js:109 | the longest run of digits that starts `parseInt`'s input: a digit-only prefix followed by a non-digit or the end |
| CallbackData.ParseInt | bot.js:109 | `parseInt` gives NaN exactly when no digit follows the optional sign, and a negative value only after a minus sign; `ParseUnsignedDigits`, `ParseNegatedDigits` and `ParseIntText` give its value |
| CallbackData.ParseUnsignedDigits | bot.js:109 | `parseInt` of a non-empty digit string is the value of its digits |
| CallbackData.ParseNegatedDigits | bot.js:109 | `parseInt` of `-` followed by a non-empty digit string is the negated value of its digits |
| CallbackData.UpToUnderscore | bot.js:109 | element 1 of `split("_")`: a prefix with no underscore, ending at the next underscore or at the end |
| CallbackData.ParseCallback | bot.js:107-109 | data is treated as a join request exactly when it starts with `join_` |
| CallbackData.DecimalRoundTrip | bot.js:109 | reading the digits of n back gives n |
| CallbackData.ParseIntText | bot.js:109 | `parseInt` of an integer's printed text gives that integer back |
| CallbackData.JoinDataRoundTrip | bot.js:107-110 | the button data `join_<id>` built at line 82 parses back to a join request for exactly that id |
| Records.AppendNewUser | bot.js:113-116 | appending a user not yet present puts them in the list and keeps user ids distinct |
| Winners.PickIndex | bot.js:48 | `Math.floor(r * len)` for r in [0, 1) is a valid position below len |
| Winners.PickIndexSlice | bot.js:48 | position k is chosen exactly when r lies in [k/len, (k+1)/len), so each remaining participant has an equal slice |
| Winners.MathRandomPick | bot.js:48 | the oracle bot.js uses, the i-th draw being `Math.floor(Math.random() * len)`; `MathRandomIsOracle` states that it always names a valid position |
| Winners.MathRandomIsOracle | bot.js:48 | flooring `Math.random()` values against the remaining length always gives a valid position |
| Winners.RemoveAt | bot.js:50 | `splice(idx, 1)` leaves one entry fewer |
| Winners.RemoveAtMultiset | bot.js:50 | `splice(idx, 1)` removes exactly the entry at idx from the multiset of entries |
| Winners.Draw | bot.js:44-53 | the draw yields exactly min(winners, participants) entries, or none when winners ≤ 0 |
| Winners.PickWinners | bot.js:44-53 | the loop returns `Draw`'s winners. There are min(winners, participants) of them, and they form a sub-multiset of the participants. All participants win when winners ≥ participants. Distinct users give distinct winners. The caller's list is a value and is not changed |
| Winners.DrawSubMultiset | bot.js:46-50 | no participant position is drawn twice: the winners, as a multiset, are contained in the participants |
| Winners.DrawFromPool | bot.js:49 | every winner is one of the participants |
| Winners.DrawDistinct | bot.js:47-50 | if participants have distinct user ids, so do the winners |
| Winners.DrawAll | bot.js:47 | when winners ≥ participants, the winners are all the participants |
| GiveawayBot.MissingField | bot.js:61 | a creation field is falsy: empty title or prize, zero duration or winner count; `Bot.Create` states that exactly these are rejected |
| GiveawayBot.JoinTarget | bot.js:107-110 | the record a join button points at: found only for `join_` data whose parsed id names that record, and absent only when no record has the parsed id |
| GiveawayBot.DisplayName | bot.js:105 | the shown name is the handle when there is one, else the given name |
| GiveawayBot.FindIndex | bot.js:110 | `find` returns the first position holding the id, and returns None exactly when no record has it |
| GiveawayBot.LookupWellFormed | bot.js:65-66 | with ids assigned as position + 1, ids are distinct and id lookup finds position id − 1 exactly for ids 1..n |
| GiveawayBot.EndOutcomeMeaning | bot.js:125-134 | ending gives NotFound exactly when no record has the id, and NoParticipants exactly when the record's list is empty. Otherwise the winners obey the count, sub-multiset, all-win and distinctness properties |
| GiveawayBot.EndingTwiceMayRedraw | bot.js:125-139 | ending the same giveaway twice can pick different winners, because nothing records that it ended |
| GiveawayBot.Bot.constructor | bot.js:25-28 | the store starts from the loaded records; an empty store is valid |
| GiveawayBot.Bot.Create | bot.js:58-67 | a falsy field leaves the store unchanged and reports MissingFields. Otherwise exactly one record is appended: id = old length + 1, endTime = now + duration·1000, no participants, no message id. Earlier records are unchanged and the invariant is kept |
| GiveawayBot.Bot.SetMessageId | bot.js:86 | only the message id of the chosen record changes |
| GiveawayBot.Bot.Join | bot.js:102-120 | non-join data, an unknown id or a repeat user leaves the store unchanged, each with its own outcome. Otherwise exactly one participant {userId, handle or given name} is appended to the matching giveaway only. User ids stay distinct |
| GiveawayBot.Bot.EndGiveaway | bot.js:125-139 | reads the store without changing it. The outcome is NotFound, NoParticipants or the drawn winners, as `EndOutcome` specifies. Under the invariant it is NotFound exactly for ids outside 1..n |
| GiveawayBot.Bot.PickWinnerCommand | bot.js:144-157 | a sender other than the admin is ignored. The admin gets the same outcome as `endGiveaway`. The store is never changed |
| GiveawayBot.JoinTwiceScenario | bot.js:113-116 | a user pressing join twice is accepted once, then told they already joined, and is listed once |
| GiveawayBot.TwoOfThreeScenario | bot.js:44-53 | with two winners and three joiners, ending yields two different winners, each one of the three, whatever the random draws |

## Left out

- Express setup, CORS, body parsing, static files and HTTP status codes (bot.js:1-14, 92-96, 162-163). These are web-framework glue.
- Telegram I/O: `sendMessage`, `answerCallbackQuery`, polling and the Markdown texts. Outcome datatypes stand in for the messages. The text `"<d>d <h>h <m>m <s>s"` built from `DurationParts` is not modelled.
- Persistence: reading `giveaways.json` is the constructor's `stored` parameter. `saveDB` has no effect on the model. JSON parsing and the shape of loaded records are not checked.
- Time and timers: `Date.now()` is the parameter `now`. The `setTimeout` that ends a giveaway is not modelled. `EndGiveaway` can be called at any point.
- Concurrency: each handler runs to completion. The `await` in the create handler is modelled only by splitting it into `Create` and `SetMessageId`. When `sendMessage` throws, the record stays without a message id; the 500 response is not modelled.
- Randomness: `Math.random()` is replaced by an index oracle. No probability distribution is stated.
- Winners.PickWinners: does not state that the draw is uniform. Equal chances are stated only per draw, by `PickIndexSlice`.
- JavaScript coercions: a missing body field is modelled as an empty string or 0, both falsy. Numeric fields are integers, not strings or fractions. `ADMIN_ID`'s loose `!=` is integer inequality. Numbers beyond 2^53 are not modelled.
- CallbackData.ParseInt: does not skip leading white space and does not read a `0x` hexadecimal prefix, both of which `parseInt` does.
- The `/pickwinner (\d+)` pattern match is done by the Telegram library. The model receives the matched id as a natural number.
- Records are values. Updating the found record in place is modelled as replacing that element of the list. Aliasing between the pushed object and later updates is not modelled.
