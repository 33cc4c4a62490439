# Subscription-gated lead funnel of a Telegram bot, in Dafny

The bot in `main.py` does three things for each user. It checks that the user
is subscribed to a configured channel. It then asks the user for a birth date.
Finally it forwards the user's handle and that date, as a "lead", to one fixed
administrator. The only state is the module-level set `awaiting_birth_date`:
the ids of users who passed the subscription check and whose date is still
expected. This project models the two handlers that read and change that set,
`start_handler` and `handle_text`, and the small string and status tests
inside them. It proves what they do to the set and what they send.

Every call into the messaging platform is replaced by an input or an output:

- The chat-member lookup is an input, `Lookup`: the status string it returns,
  or `LookupFailed` when it raises.
- Whether an outbound call (`message.answer`, `bot.send_message`) goes through
  is an input, `failedSends`. The k-th outbound call of one handler run raises
  exactly when k is in that set.
- What a handler does is its output: a trace of `Event`s. An event is a send
  (its message and whether it went through), `Added(id)` or `Discarded(id)`.
  `Funnel.Replay` applies the set changes of a trace in order.
- The channel name and the administrator id come in as a `Config` value.

Files:

- `wrappers.dfy` (module `Wrappers`): `Option`.
- `pystr.dfy` (module `PyStr`): the Python string behaviour the handlers use.
  That is `str.strip()` with Python's whitespace set, `str(n)` for an integer,
  and the slice `s[1:]`.
- `funnel.dfy` (module `Funnel`): the decision logic as pure functions.
  `StartTrace` is `start_handler` and `TextTrace` is `handle_text`. The inline
  tests and formatting are `IsSubscribed`, `IsAcceptedDate`, `LeadHandle` and
  `ChannelUrl`. The properties of all of these are lemmas.
- `bot.dfy` (module `BotState`): class `Bot`. Its field `awaitingBirthDate` is
  the global set. Its methods `StartHandler` and `HandleText` change the set
  step by step, in the order the source does, and are proved to match
  `StartTrace`/`TextTrace` and `Replay`. A ghost field `passedGate` records
  every id whose lookup has said subscribed. The invariant `Valid()` says that
  only such ids are ever awaited. So a lead is only ever forwarded for a user
  who once passed the subscription check.

`main.py` does no calendar check on the date, and `handle_text` catches no
platform errors:

- A date is accepted when the stripped text has at least eight characters and
  contains a dot. No calendar check is done, so `31.02.2024` is accepted
  (`Funnel.AcceptsNonexistentDay`).
- `handle_text` does not catch errors. If the administrator notification
  raises, the handler stops: the user gets no reply and stays in the awaiting
  set. If the thank-you answer raises, the user has already been discarded.
- In `start_handler` the user is added to the set before the date prompt is
  sent. So a failed prompt (answered by the generic error) still leaves the
  user awaiting.

## Model

| member | source | states |
|---|---|---|
| `PyStr.IsSpace` | main.py:55 | the whitespace `strip()` removes includes space, tab, newline and carriage return, and never a dot, a digit or a Latin letter |
| `PyStr.Strip` | main.py:55 | the result has no whitespace at either end, and sits in the input with only whitespace around it |
| `PyStr.StripUnique` | main.py:55 | any piece of the text that has only whitespace around it and none at its own ends is what strip returns |
| `PyStr.StripIgnoresPadding` | main.py:55 | whitespace added on either side of a text does not change its strip |
| `PyStr.StripIdempotent` | main.py:55 | stripping twice is the same as stripping once |
| `PyStr.StripKeepsVisible` | main.py:55 | a non-whitespace character is in the stripped text exactly when it is in the original |
| `PyStr.SliceFrom` | main.py:40 | the Python slice `s[start:]`: length `|s|-start`, or 0 past the end, and the characters of `s` from `start` on |
| `PyStr.IntToDecimal` | main.py:59 | `str(id)` starts with a minus sign exactly for negative ids |
| `PyStr.IntDecimalRoundTrip` | main.py:59 | parsing the decimal form of any integer gives that integer back |
| `Funnel.IsSubscribed` | main.py:24 | a status passes exactly when it is `member`, `administrator` or `creator` |
| `Funnel.SubscribedStatuses` | main.py:24 | of the member statuses, exactly creator, administrator and member count as subscribed; restricted, left and kicked do not |
| `Funnel.IsAcceptedDate` | main.py:57 | a stripped text passes exactly when it has at least eight characters and a dot at some position |
| `Funnel.AcceptedTextIff` | main.py:55-57 | a text is accepted exactly when its stripped form has at least 8 characters and the text contains a dot |
| `Funnel.AcceptanceIgnoresPadding` | main.py:55-57 | whitespace around a text never changes whether it is accepted |
| `Funnel.AcceptsPlainDate` | main.py:55-57 | `15.08.1990` is accepted and passed on unchanged |
| `Funnel.AcceptsPaddedDate` | main.py:55-57 | `15.08.1990` with any whitespace around it is accepted, and the whitespace is dropped |
| `Funnel.AcceptsNonexistentDay` | main.py:55-57 | `31.02.2024` is accepted: there is no calendar check |
| `Funnel.RejectsWithoutDotOrLength` | main.py:55-57 | `15081990` (no dot) and `1.1.90` (shorter than 8) are rejected |
| `Funnel.SenderOf` | main.py:59 | the username names the sender exactly when it is present and non-empty (Python truthiness); otherwise the numeric id does |
| `Funnel.LeadHandle` | main.py:59 | the handle is at least 2 characters long and starts with `@` exactly when the user has a non-empty username |
| `Funnel.HandleRoundTrip` | main.py:59 | the handle can be read back to the username when there is one, otherwise to the numeric id |
| `Funnel.HandleInjective` | main.py:59 | two different senders (by username, or by id when there is none) never get the same handle |
| `Funnel.ChannelUrl` | main.py:40 | the link starts with `https://t.me/`, followed character by character by the channel name without its first character (nothing for an empty name) |
| `Funnel.ChannelUrlOfName` | main.py:40 | for a channel configured as `@name` the link is `https://t.me/name` |
| `Funnel.StartTrace` | main.py:16-46 | a start only ever changes the sender's membership, never discards, and raises out of the handler exactly when the error reply also fails |
| `Funnel.StartEffect` | main.py:23-26 | after a start, the set is the old set plus the sender when the lookup said subscribed, and the old set otherwise |
| `Funnel.StartSubscribed` | main.py:24-32 | a subscribed start sends the date prompt, then the generic error if that prompt failed, and no lead |
| `Funnel.StartNotSubscribed` | main.py:33-43 | a start with any other status leaves the set as it was and sends the subscribe prompt with the channel link, and no lead |
| `Funnel.StartLookupFailed` | main.py:44-46 | a failed lookup leaves the set as it was and sends only the generic error reply |
| `Funnel.StartSendsNoLead` | main.py:16-46 | a start never sends a lead |
| `Funnel.ForwardLead` | main.py:58-69 | the accepted-date branch only changes the sender's membership, and removes it only right after an administrator notification that went through |
| `Funnel.TextTrace` | main.py:49-74 | a text only changes the sender's membership; a removal only directly follows a delivered notification; a sender who is not awaiting gets exactly what `start_handler` gives |
| `Funnel.TextForwardsLeadIff` | main.py:54-67 | for an awaiting sender a lead is sent exactly when the stripped text has at least 8 characters and the text has a dot; it goes to the administrator with the sender's handle and the stripped text |
| `Funnel.TextAcceptedEffect` | main.py:57-69 | an accepted text removes the sender only when the notification went through; if it raised, the sender still awaits, the handler raises and no reply is sent; otherwise the reply is the thank-you |
| `Funnel.TextRejected` | main.py:70-71 | a rejected text from an awaiting sender leaves the set as it was, sends exactly the format prompt, and sends no lead |
| `Funnel.HandlersTouchOnlySender` | main.py:14-74 | neither handler changes whether any other id is in the set |
| `Funnel.LeadRestartsFunnel` | main.py:68-74 | after a forwarded lead, the same user's next text is handled exactly as a start |
| `Funnel.NotSubscribedNeverPasses` | main.py:72-74 | a user who is not awaiting and not subscribed stays out of the set, sends no lead and is shown the subscribe prompt, whatever they write |
| `Funnel.DateAcceptedWhenAwaiting` | main.py:54-69 | an awaiting user's `15.08.1990`, with every call going through, sends the administrator that date and the user's handle, thanks the user, and removes them from the set |
| `Funnel.HappyPath` | main.py:16-74 | start as a member, then `15.08.1990`: the user is awaited after the start, the lead is forwarded, the user is thanked, and the set ends as it began |
| `BotState.Bot.constructor` | main.py:14 | the set starts empty |
| `BotState.Bot.StartHandler` | main.py:16-46 | the events are `StartTrace`'s; the new set is the old one with them applied; the subscription invariant is kept |
| `BotState.Bot.HandleText` | main.py:49-74 | the events are `TextTrace`'s; the new set is the old one with them applied; a lead is only sent for a user who passed the subscription check; the invariant is kept |

## Left out

- The bot framework: `Bot`, `Dispatcher`, the handler decorators and
  `executor.start_polling` (main.py:1-2, 10-11, 76-78). In particular the
  routing of a `/start` command to `start_handler` and of other text to
  `handle_text` is not modelled. Either handler can be called with any message.
- The platform calls themselves (main.py:23, 27-43, 60-67, 69, 71). Their
  results are inputs, and their messages are recorded as `Reply` and `Lead`
  values. Message wording, HTML parse mode and the inline keyboard are not
  modelled; the button's URL is kept as `ChannelUrl`.
- The notification (main.py:60-66) is sent in HTML mode with the raw
  `birth_date` in it, so an accepted text holding an unescaped `<` or `&`
  (say `15.08.1990 <3`) is likely refused by Telegram every time. The model
  lets any send fail through `failedSends`, but does not tie that failure to
  the text.
- The `print` logging (main.py:45, 77) and the hard-coded settings (main.py:6-8).
  The channel and the administrator id are the `Config` parameter; the token
  is not used.
- asyncio interleaving: each handler run is one atomic step.
- What the framework does with an exception that leaves a handler. The model
  only records that the handler raised (`Funnel.Raised`).
- Python strings that hold lone surrogate code points: a Dafny `char` is a
  Unicode scalar value, so such strings cannot be given as input.
