# locaLLM_bot: a verified model of the bot's decision logic

locaLLM_bot is a Telegram bot written in Go. It passes each user's text to a
local language-model server and sends the answer back. This project models in
Dafny the three pieces of sequential logic that decide what the bot does with
each update, and proves what they promise.

**The response segmenter** (`SplitMessage`, utils.go), in `segmenter.dfy`.
- It is an imperative method with its loops: the backward newline and space
  searches, the blank-skipping loop, and the outer `for len(current) > maxLen`
  loop.
- It is proved against the specification function `Split`.
- `Split` is shown to produce bounded, non-empty chunks. Every chunk after the
  first starts with a non-blank byte.
- No byte is lost: the text equals the chunks interleaved with the runs of
  spaces and newlines the loop drops.

**Admission and dispatch** (`isUserAllowed`, `checkRateLimit`,
`sanitizeError`, `HandleMessage`, `handleCommand`, `handleTextMessage` in
telegram.go), in `ratewindow.dfy`, `redaction.dfy`, `replies.dfy` and
`telegram.dfy`.
- `TelegramBot` is a class. Its configuration fields are constants. It has
  three mutable fields:
  - `lastUpdate`;
  - the rate-limiter map `rateLimiter`;
  - an `outbox` of `(chatId, text)` pairs, which models `SendMessage`.
- Each handler is a method that updates these fields. It is specified by a pure
  effect function (`MessageEffect`, `CommandEffect`, `TextEffect`).
- The routing, the order of the checks and the rate-limit invariants are
  lemmas about those functions.
- The sliding window is built from `Prune` and `Admit`.
- Token redaction is `strings.ReplaceAll`. It is proved equal to splitting at
  the token and joining with `[REDACTED]`. The redacted text is proved free of
  the token whenever the token cannot overlap the marker.

**The polling batch step** (main.go:39-56), in `intake.dfy`.
- `PollOnce` folds the update ids into `lastUpdate` and hands each message to
  `HandleMessage` in delivery order.
- A failed fetch changes nothing.
- The watermark is the maximum of the old value and the batch's ids. The next
  fetch offset lies past every id delivered.

**Representation choices.**
- Texts are byte sequences (`seq<byte>`), because Go's `len` and indexing
  count bytes.
- The fixed Russian replies are the UTF-8 bytes of the literals, listed in
  `replies.dfy`.
- Go's nil pointers are `Option`.
- The clock `time.Now()` is an integer parameter `now`, in nanoseconds as
  `time.Duration` counts them.
- The model server's answer is a parameter `reply`, either `Ok(text)` or
  `Err`. It is consulted only on the path where the Go code calls the server.

**Behaviour of the code that the model reproduces:**
- Authorization is checked before command routing, so `/start` and `/help` are
  refused to users outside a non-empty allow list.
- The rate limiter is keyed by the chat id, not by the sender id.
- The "message too long" check counts bytes, although its reply says
  "символов" (characters). With the default limit of 4096, a 10000-byte prompt
  gets the "too long" reply and never reaches the model.
- A 9000-byte answer with no spaces or newlines is sent as three parts
  (4000, 4000, 1000), after the ack: four messages in all.
- The continuation marker is appended after splitting. The first of several
  messages can therefore be 44 bytes longer than the split limit.

## Model

| member | source | states |
|---|---|---|
| Base.Decimal | telegram.go:342 | `%d` of a natural number is a non-empty sequence of ASCII digits whose decimal value is the number, with no leading zero unless it is the single digit 0 |
| Segmenter.Chunks | utils.go:17-53 | the loop and the final append produce no more chunks than the text has bytes, and none at all only for the empty text; its chunks are characterised by `ChunksBounded`, `ChunksStartNonBlank` and `ChunksRejoin` |
| Segmenter.Split | utils.go:5-57 | the result of `SplitMessage` is empty (Go's nil slice) exactly for the empty text with a negative limit, and a text that has to be split gives at most one part per byte; its parts are characterised by `FitsUnchanged`, `NonPositiveLimit`, `SplitBounded`, `LaterChunksStartNonBlank` and `SplitReconstructs` |
| Segmenter.SplitMessage | utils.go:5-57 | the method returns exactly `Split(text, maxLen)`; its loop keeps "parts so far plus the chunks of the remainder are the chunks of the text" |
| Segmenter.NextChunk | utils.go:18-49 | one turn of the outer loop returns the chunk up to `CutPoint` and the remainder with its leading blanks dropped |
| Segmenter.ScanBack | utils.go:19-25 | the backward search returns the last position in `(lo, hi]` whose preceding byte is the target, or `hi` when the range has none |
| Segmenter.LastAfter | utils.go:20-25 | a found position lies in `(lo, hi]`, is at least 1, and follows a byte equal to the target |
| Segmenter.LastAfterIsLast | utils.go:20-25 | a found position is the last in the range (no target byte after it below `hi`); finding nothing means no target byte in the range |
| Segmenter.SkipBlanks | utils.go:47-49 | the loop drops exactly the leading run of spaces and newlines |
| Segmenter.LeadingBlanks | utils.go:47-49 | the dropped prefix is all blanks and the byte after it, if any, is not blank |
| Segmenter.EffectiveLimit | utils.go:10-12 | the limit used is positive, and equals `maxLen` when that is positive |
| Segmenter.CutPoint | utils.go:19-41 | every cut position is between 1 and the limit, so each turn removes at least one byte |
| Segmenter.CutPointShape | utils.go:19-43 | a newline cut or a space cut keeps the delimiter as the chunk's last byte, within 100 or 50 positions of the window end and after the last such delimiter; a newline at index `maxLen-1` counts as not found, so the space search runs; a cut before `maxLen` always follows a newline within 100 or a space within 50 positions of the window end; the cut is the hard cut at `maxLen` exactly when neither search found an earlier position (a space at index `maxLen-1` stops the space search at `maxLen`, like a newline there stops the newline search) |
| Segmenter.Remainder | utils.go:43-49 | the remainder is strictly shorter than the text, so the loop terminates |
| Segmenter.LoopStep | utils.go:43-49 | the chunk cut off plus the chunks of the remainder are the chunks of the current text |
| Segmenter.FitsUnchanged | utils.go:6-8 | a text that fits comes back as the single chunk `[text]` |
| Segmenter.NonPositiveLimit | utils.go:6-12 | a non-positive limit is replaced by 4000, but only after the early return; the empty text yields no chunk with a negative limit and one empty chunk with limit 0 |
| Segmenter.FirstChunkIsPrefix | utils.go:43-44 | the first chunk of a non-empty remainder is a non-empty prefix of it |
| Segmenter.ChunksBounded | utils.go:17-53 | every chunk of the splitting loop is non-empty and at most the limit long |
| Segmenter.SplitBounded | utils.go:5-57 | every part is at most the effective limit long, and no part is empty when the text had to be split |
| Segmenter.ChunksStartNonBlank | utils.go:43-53 | every chunk after the first starts with a byte other than space or newline |
| Segmenter.LaterChunksStartNonBlank | utils.go:5-57 | in the result of `SplitMessage`, every part after the first starts with a byte other than space or newline |
| Segmenter.RunsMatchChunks | utils.go:43-53 | there is one dropped run per chunk, and each run is all blanks |
| Segmenter.ChunksRejoin | utils.go:43-53 | the chunks interleaved with the dropped runs give back the text |
| Segmenter.RejoinCons | utils.go:43-44 | interleaving one more chunk and run in front prepends them |
| Segmenter.CutDecomposes | utils.go:43-49 | the chunk, the dropped blanks and the remainder concatenate to the current text |
| Segmenter.SplitReconstructs | utils.go:5-57 | no byte other than dropped blanks is lost: `chunk1 ++ ws1 ++ … ++ chunkN ++ wsN` is the text, every `ws` blank |
| Segmenter.HardCutExample | utils.go:17-53 | 4500 non-blank bytes with limit 4000 give a chunk of 4000 bytes and one of 500 |
| RateWindow.Prune | telegram.go:157-163 | the pruned list is no longer than the stored one, holds only timestamps strictly after the window start, and holds each such timestamp as often as the stored list does |
| RateWindow.PruneCounts | telegram.go:157-163 | the pruned list's length is the number of stored timestamps after the window start |
| RateWindow.PruneSorted | telegram.go:157-163 | pruning a sorted list gives a sorted list |
| RateWindow.PruneBelow | telegram.go:157-163 | pruning introduces no timestamp later than any bound the stored list respects |
| RateWindow.Admit | telegram.go:154-171 | an admission stores at most `maxRequests` timestamps and a rejection at least that many; the decision, the list stored and its window, order and bound are stated by `AdmitDecision`, `AdmitKeepsWindow`, `AdmitKeepsOrder` and `AdmitBounded` |
| RateWindow.AdmitDecision | telegram.go:154-171 | a call is admitted iff fewer than `maxRequests` stored timestamps are strictly after `now - rateWindow`; a rejection stores the pruned list, an admission the pruned list followed by `now` |
| RateWindow.AdmitKeepsWindow | telegram.go:155-170 | right after a call the key's list holds only timestamps after `now - rateWindow`, and none later than `now` if none was before |
| RateWindow.AdmitKeepsOrder | telegram.go:159-170 | with a clock that does not go backwards, a sorted list stays sorted |
| RateWindow.AdmitBounded | telegram.go:165-170 | a list no longer than `maxRequests` stays no longer than `maxRequests` |
| RateWindow.AdmitExample | telegram.go:150-172 | with capacity 2 and a 60-unit window: calls at 0 and 1 admitted, at 2 rejected, at 61 admitted again with the old entries pruned |
| Redaction.ReplaceAll | telegram.go:132 | `strings.ReplaceAll` with a non-empty pattern: a replacement no longer than the pattern never lengthens the text, one no shorter never shortens it; its content is characterised by `ReplaceIsSplitJoin`, `ReplaceWithItself`, `ReplaceAbsent` and `ReplaceLeavesNone` |
| Redaction.SplitOn | telegram.go:132 | splitting at a non-empty separator yields at least one piece |
| Redaction.ReplaceIsSplitJoin | telegram.go:132 | replacing every non-overlapping occurrence from the left equals splitting at the occurrences and joining with the replacement |
| Redaction.FirstPieceIsPrefix | telegram.go:132 | the first piece is a prefix of the text |
| Redaction.PiecesFree | telegram.go:132 | no piece contains the separator |
| Redaction.ReplaceWithItself | telegram.go:132 | replacing the pattern by itself, or splitting and joining with it, gives back the text |
| Redaction.ReplaceAbsent | telegram.go:132-133 | a text without the pattern comes back unchanged |
| Redaction.JoinClean | telegram.go:132 | pieces without the pattern, joined with a glue whose end bytes are not in the pattern and that does not contain it, contain no occurrence |
| Redaction.ReplaceLeavesNone | telegram.go:126-133 | after the replacement the pattern no longer occurs, provided the replacement can take no part in an occurrence |
| Telegram.SendAll | telegram.go:364-371 | one send per text, in order, each to the given chat |
| Telegram.Decorate | telegram.go:364-368 | the parts as sent: same count, the marker appended to the first part only when there are several, the others unchanged |
| Telegram.StoreKeeps | telegram.go:166-170 | storing a list within the capacity, sorted and not later than the clock, keeps the limiter bounded and ordered |
| Telegram.TelegramBot.constructor | telegram.go:113-123 | a new bot holds the given configuration, watermark 0, an empty limiter and nothing sent |
| Telegram.TelegramBot.Default | telegram.go:77-123 | without environment overrides: everyone allowed, 10 requests per minute (60·10⁹ ns), prompts up to 4096 bytes |
| Telegram.TelegramBot.IsUserAllowed | telegram.go:138-146 | an empty allow list admits everyone; otherwise the sender's id decides when there is a sender, else the chat's id |
| Telegram.TelegramTokenRedacted | telegram.go:128-134 | a token of Telegram's `<id>:<secret>` form (it contains `:`) with no bracket in it never occurs in a sanitized error text |
| Telegram.TelegramBot.SanitizeError | telegram.go:128-134 | nil stays nil; otherwise the token is replaced as split-and-join with `[REDACTED]`; a text without the token is unchanged; a token without brackets that does not occur in `[REDACTED]` no longer occurs in the result |
| Telegram.TelegramBot.TooLongReply | telegram.go:341-342 | the "too long" reply is the fixed prefix, then ASCII digits whose decimal value is `maxPromptLen`, then the fixed suffix (`DefaultTooLongReply` gives the bytes for 4096) |
| Telegram.TelegramBot.ResponseSends | telegram.go:349-376 | after the ack: a backend error gives exactly one send; a success gives one send per part of `SplitMessage(response, 4000)`; their texts are characterised by `ResponseDelivery` and `ResponseComplete` |
| Telegram.TelegramBot.AnswerSends | telegram.go:335-376 | once the rate limit has answered, at least one message goes to the chat; more than one only for an admitted prompt within the length limit, and then the ack comes first |
| Telegram.TelegramBot.TextEffect | telegram.go:333-377 | `handleTextMessage` always stores a list for the chat and keys no other new chat; it always sends, first to that chat; the full policy is `TextPolicy`, the limiter invariants are `TextLimiter`, and `BackendOnlyWhenAdmitted` shows the backend is consulted only past both checks |
| Telegram.TelegramBot.CommandEffect | telegram.go:307-330 | `handleCommand` always sends at least one message, first to the chat, and loses no limiter key; `/start` and `/help` send exactly one message and leave the limiter untouched; other commands are text (`MessageRouting`) |
| Telegram.TelegramBot.MessageEffect | telegram.go:280-304 | `HandleMessage` loses no limiter key; it sends only for a message that has a chat, and then first to that chat; it changes the limiter only when it also sends; routing is `MessageRouting`, the limiter invariants `MessageLimiter` |
| Telegram.TelegramBot.SendMessage | telegram.go:228 | a send appends `(chatId, text)` to the outbox |
| Telegram.TelegramBot.CheckRateLimit | telegram.go:150-172 | the answer and the new map are `Admit`'s verdict for the key, with every other key unchanged; the answer is true iff fewer than `maxRequests` stored entries are in the window; the key's list then lies in the window; the limiter stays bounded, and ordered when it was |
| Telegram.TelegramBot.Recent | telegram.go:157-163 | the pruning loop returns exactly `Prune(stored, windowStart)` |
| Telegram.TelegramBot.HandleTextMessage | telegram.go:333-377 | the sends and the new limiter are those of `TextEffect`; the limiter stays bounded |
| Telegram.TelegramBot.Answer | telegram.go:335-358 | after the rate-limit verdict: the rejection, the "too long" reply, or the ack followed by the answer's sends |
| Telegram.TelegramBot.SendResponse | telegram.go:349-376 | a backend error sends the generic error; a success sends the marked parts of `SplitMessage(response, 4000)` |
| Telegram.TelegramBot.SendParts | telegram.go:363-376 | the send loop sends exactly the decorated parts, in order, to the chat |
| Telegram.TelegramBot.HandleCommand | telegram.go:307-330 | the sends and the new limiter are those of `CommandEffect` |
| Telegram.TelegramBot.HandleMessage | telegram.go:280-304 | the sends and the new limiter are those of `MessageEffect`; the limiter stays bounded |
| Telegram.MessageRouting | telegram.go:280-329 | nil message or chat: nothing; sender refused: nothing, commands included; exactly `/start` or `/help`: the fixed reply, limiter untouched; empty text: nothing; any other text, slash or not, goes to `handleTextMessage` unchanged |
| Telegram.TextPolicy | telegram.go:333-358 | the rate limit is checked first and always stores the chat's list (other chats untouched), so an over-long prompt still uses a slot; rejected: one "too many requests"; too long: one "too long"; otherwise the ack followed by the answer's sends, so a backend error gives exactly ack and generic error |
| Telegram.BackendOnlyWhenAdmitted | telegram.go:335-350 | a prompt that is rate-limited or too long is handled the same whatever the backend would answer |
| Telegram.ResponseDelivery | telegram.go:360-371 | after the ack: one send per part, in order, to the chat; the marker only on the first part and only when there are several; later sends are non-empty parts of at most 4000 bytes that do not start blank; the first is at most 4000 bytes plus the marker |
| Telegram.DecoratedSends | telegram.go:364-369 | the sends of the decorated parts are one per part, to the chat, with the marker on the first of several |
| Telegram.ResponseComplete | telegram.go:360-371 | the parts sent, with the marker taken off the first and the dropped blanks put back, are the whole response |
| Telegram.TextLimiter | telegram.go:335 | handling a text changes only its chat's list and keeps the limiter bounded by `maxRequests` and, with a positive window, sorted and not later than the clock |
| Telegram.MessageLimiter | telegram.go:280-304 | handling a message changes at most the list of its own chat and keeps the limiter invariants |
| Telegram.OrderedLater | telegram.go:154-170 | a later clock reading keeps ordered lists ordered |
| Telegram.DefaultTooLongReply | telegram.go:342 | with the default limit, the "too long" reply prints 4096 |
| Telegram.LongReplyExample | telegram.go:333-371 | an allowed user's first prompt answered with 4500 non-blank bytes gives ack, the first 4000 bytes with the marker, then the last 500; the chat's list holds only `now` |
| Telegram.MarkedPartLength | telegram.go:360-371 | the marker is 44 bytes, so the first of several messages can exceed the 4000-byte split limit: with the bot's own texts, the 4500-byte answer of `LongReplyExample` sends a 4044-byte first part |
| Intake.Watermark | main.go:48-51 | the watermark never falls below its start |
| Intake.FetchOffset | telegram.go:176 | the offset asked for is past the watermark (`OffsetPastBatch`: past every id of the batch) |
| Intake.Step | main.go:48-56 | one turn of the inner loop: an update without a message leaves sends and limiter as they were, and no limiter key is lost; `StepAfter` shows earlier sends stay in front |
| Intake.BatchEffect | main.go:48-56 | the messages of a batch, handled one after another, lose no limiter key; `BatchPrefix`, `BatchConcat`, `EmptyUpdatesIgnored` and `BatchKeepsOrder` state its order, composition and invariants |
| Intake.WatermarkIsMax | main.go:48-51 | the watermark is at least every id of the batch and equals the start or one of the ids: the maximum |
| Intake.WatermarkPrefix | main.go:49-51 | one more update raises the watermark to its id exactly when that is larger |
| Intake.BatchPrefix | main.go:48-56 | handling one more update extends the batch effect by that update's step |
| Intake.PollOnce | main.go:39-56 | a fetch error changes nothing; otherwise `lastUpdate` ends at the batch's watermark, the sends and limiter are the messages' effects in delivery order, `marks[i]` (the watermark once update `i` is folded) covers that update's id, and `lastUpdate` never decreases; the fold happens before the dispatch, because `Dispatch` requires it |
| Intake.Dispatch | main.go:53-55 | runs only once `lastUpdate` covers the update's id; an update without a message changes nothing; otherwise its message's effect follows the earlier ones |
| Intake.WatermarkExample | main.go:48-51 | ids 3, 1, 4 from 0 give watermark 4 and next offset 5 |
| Intake.OffsetPastBatch | telegram.go:176 | the next offset is past the old watermark and past every id of the batch, so no update of it is fetched again |
| Intake.WatermarkConcat | main.go:48-51 | two batches in a row raise the watermark as their concatenation does |
| Intake.BatchConcat | main.go:48-56 | handling two batches in a row is handling their concatenation: the first batch's sends come first |
| Intake.StepAfter | main.go:53-55 | sends already out stay in front of a step's own sends |
| Intake.EmptyUpdatesIgnored | main.go:53-55 | updates without a message send nothing and leave the limiter unchanged |
| Intake.BatchKeepsOrder | main.go:48-56 | with a clock that does not go backwards over the batch, and a positive window, the limiter's lists stay sorted and not later than the last clock reading |

## Left out

- `GetUpdates` and the HTTP side of `SendMessage` (telegram.go:175-277) are not modelled: no HTTP requests, response-size limits or JSON. A fetch is an input (`Fetched(updates)` or `FetchError`), and a send is an append to `outbox`.
- Send errors are only logged by the Go code, so each send is modelled as succeeding.
- ollama.go, the client of the model server, is not part of this model. Its answer is the input `reply`.
- The environment parsing in `NewTelegramBot` (telegram.go:76-111) is not modelled. The allow list, limits and window are constructor parameters, with the positivity those parsers guarantee as the constructor's precondition. `AllowedUsers` is a set, because the parser only ever stores `true`.
- The goroutine, signal handling, context cancellation and shutdown (main.go:25-37, 59-67) are not modelled. One turn of the loop is `PollOnce`, and the outer `for` repeats it.
- The mutex in `checkRateLimit` is not modelled, because the calls are sequential.
- `time.Sleep` (the 100 ms pacing and the 5 s back-off) is not modelled.
- `log.Printf` is not modelled.
- Update ids and chat ids are unbounded integers, so int64 wrap-around is not modelled. `LastUpdate + 1` cannot overflow for ids Telegram issues.
- Timestamps are integers, not `time.Time` (monotonic clock readings and time zones are not modelled).
- UTF-8 validity and Telegram's character counting are not modelled: the code measures bytes, and so does the model.
- The fixed replies (`Replies.Catalog`) and the 4000-byte split limit (`Telegram.ReplyLimit`) are constructor-set constant fields of the bot, `texts` and `replyLimit`. This keeps the lemmas symbolic in them. The constructors' contracts pin both to the literals, and the class invariant `Valid` also requires `replyLimit == ReplyLimit`.
- Telegram.TelegramBot.SanitizeError: the no-leak clause holds only for a token that contains no bracket and does not occur inside "[REDACTED]". The code does not enforce this, because main.go:15-16 rejects only the empty token. A token such as `ED` or `]` is still present after redaction. A token in Telegram's `<id>:<secret>` form contains `:`, which "[REDACTED]" lacks, and its secret uses no bracket, so such tokens meet the condition. `Telegram.TelegramTokenRedacted` proves the no-leak property for them.
