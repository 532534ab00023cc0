/** The admission and dispatch policy of `TelegramBot` (telegram.go): who may
    talk to the bot, the per-chat sliding-window rate limit, token redaction,
    and what `HandleMessage` sends for each incoming message.

    Sending is an append to `outbox`. The clock is the parameter `now` (in
    nanoseconds, like `time.Duration`), and the generation backend's answer
    is the parameter `reply`; it is only looked at on the path where the
    source calls the backend. */
module Telegram {
  import opened Base
  import opened Segmenter
  import opened RateWindow
  import opened Redaction
  import opened Replies

  datatype Message = Message(from: Option<int>, chat: Option<int>, text: seq<byte>)

  datatype Update = Update(updateId: int, message: Option<Message>)

  /** What `Ollama.SendPrompt` returns: a response text or an error. */
  datatype BackendReply = Ok(text: seq<byte>) | Err

  /** One `SendMessage(chatID, text)` call. */
  datatype Outbound = Outbound(chatId: int, text: seq<byte>)

  /** What handling one message does: the messages sent, in order, and the
      rate-limiter map afterwards. */
  datatype Effect = Effect(sends: seq<Outbound>, limiter: map<int, seq<int>>)

  /** "/start" and "/help" in UTF-8. */
  const StartCommand: seq<byte> := [47, 115, 116, 97, 114, 116]
  const HelpCommand: seq<byte> := [47, 104, 101, 108, 112]
  /** What `sanitizeError` puts in place of the token: "[REDACTED]". */
  const Redacted: seq<byte> := [OpenBracket, 82, 69, 68, 65, 67, 84, 69, 68, CloseBracket]
  const OpenBracket: byte := 91
  const CloseBracket: byte := 93
  const Colon: byte := 58
  /** The limit `handleTextMessage` passes to `SplitMessage`. */
  const ReplyLimit: int := 4000

  /** A key's stored timestamps; a missing key reads as the empty list. */
  function Entries(limiter: map<int, seq<int>>, key: int): seq<int> {
    if key in limiter then limiter[key] else []
  }

  /** Every stored list is sorted and none holds a time later than `now`. */
  ghost predicate OrderedUpTo(limiter: map<int, seq<int>>, now: int) {
    forall k :: k in limiter ==> Sorted(limiter[k]) && forall i :: 0 <= i < |limiter[k]| ==> limiter[k][i] <= now
  }

  ghost predicate Bounded(limiter: map<int, seq<int>>, capacity: int) {
    forall k :: k in limiter ==> |limiter[k]| <= capacity
  }

  /** Storing a list within the bounds keeps the limiter within them. */
  lemma StoreKeeps(limiter: map<int, seq<int>>, key: int, v: seq<int>, capacity: int, now: int)
    ensures Bounded(limiter, capacity) && |v| <= capacity ==> Bounded(limiter[key := v], capacity)
    ensures OrderedUpTo(limiter, now) && Sorted(v) && (forall i :: 0 <= i < |v| ==> v[i] <= now) ==>
      OrderedUpTo(limiter[key := v], now)
  {
  }

  /** One send per text, in order, all to `chatId`. */
  function SendAll(chatId: int, texts: seq<seq<byte>>): (r: seq<Outbound>)
    ensures |r| == |texts|
    ensures forall i :: 0 <= i < |r| ==> r[i] == Outbound(chatId, texts[i])
  {
    seq(|texts|, i requires 0 <= i < |texts| => Outbound(chatId, texts[i]))
  }

  /** The parts as the send loop writes them: the first one gets `marker`
      appended when there is more than one. */
  function Decorate(parts: seq<seq<byte>>, marker: seq<byte>): (r: seq<seq<byte>>)
    ensures |r| == |parts|
    ensures forall i :: 0 <= i < |r| ==> r[i] == if i == 0 && |parts| > 1 then parts[0] + marker else parts[i]
  {
    if |parts| > 1 then [parts[0] + marker] + parts[1..] else parts
  }

  class TelegramBot {
    const token: seq<byte>
    const allowedUsers: set<int>
    const maxRequests: nat
    /** The window length in nanoseconds. */
    const rateWindow: int
    const maxPromptLen: nat
    /** The fixed texts; both constructors install the literals, `Catalog`. */
    const texts: Texts
    /** The split limit for replies; both constructors set it to
        `ReplyLimit`. */
    const replyLimit: int
    var lastUpdate: int
    var rateLimiter: map<int, seq<int>>
    var outbox: seq<Outbound>

    /** What the constructor guarantees about the configuration (the
        environment parsers only accept positive values, and `main` refuses
        an empty token). */
    predicate Configured() {
      |token| > 0 && maxRequests > 0 && rateWindow > 0 && maxPromptLen > 0
    }

    ghost predicate Valid()
      reads this
    {
      Configured() && replyLimit == ReplyLimit && Bounded(rateLimiter, maxRequests)
    }

    constructor (token: seq<byte>, allowedUsers: set<int>, maxRequests: nat, rateWindow: int, maxPromptLen: nat)
      requires |token| > 0 && maxRequests > 0 && rateWindow > 0 && maxPromptLen > 0
      ensures Valid()
      ensures this.token == token && this.allowedUsers == allowedUsers && texts == Catalog && replyLimit == ReplyLimit
      ensures this.maxRequests == maxRequests && this.rateWindow == rateWindow && this.maxPromptLen == maxPromptLen
      ensures lastUpdate == 0 && rateLimiter == map[] && outbox == []
    {
      this.token := token;
      this.allowedUsers := allowedUsers;
      this.maxRequests := maxRequests;
      this.rateWindow := rateWindow;
      this.maxPromptLen := maxPromptLen;
      texts := Catalog;
      replyLimit := ReplyLimit;
      lastUpdate := 0;
      rateLimiter := map[];
      outbox := [];
    }

    /** The bot with no environment overrides: everyone allowed, 10 requests
        per minute, prompts of up to 4096 bytes. */
    constructor Default(token: seq<byte>)
      requires |token| > 0
      ensures Valid()
      ensures this.token == token && allowedUsers == {} && texts == Catalog && replyLimit == ReplyLimit
      ensures maxRequests == 10 && rateWindow == 60_000_000_000 && maxPromptLen == 4096
      ensures lastUpdate == 0 && rateLimiter == map[] && outbox == []
    {
      this.token := token;
      allowedUsers := {};
      maxRequests := 10;
      rateWindow := 60_000_000_000;
      maxPromptLen := 4096;
      texts := Catalog;
      replyLimit := ReplyLimit;
      lastUpdate := 0;
      rateLimiter := map[];
      outbox := [];
    }

    /** `isUserAllowed`; the source dereferences `Chat` when `From` is nil. */
    function IsUserAllowed(m: Message): (r: bool)
      requires m.from.Some? || m.chat.Some?
      ensures allowedUsers == {} ==> r
      ensures allowedUsers != {} && m.from.Some? ==> (r <==> m.from.value in allowedUsers)
      ensures allowedUsers != {} && m.from.None? ==> (r <==> m.chat.value in allowedUsers)
    {
      if |allowedUsers| == 0 then true
      else if m.from.Some? then m.from.value in allowedUsers
      else m.chat.value in allowedUsers
    }

    /** `sanitizeError`: nil stays nil; otherwise every occurrence of the
        token, scanning from the left, becomes "[REDACTED]", a text without
        the token comes back as it was, and a token with no bracket that
        does not occur inside "[REDACTED]" is gone from the result. */
    function SanitizeError(err: Option<seq<byte>>): (r: Option<seq<byte>>)
      requires |token| > 0
      ensures r.None? <==> err.None?
      ensures err.Some? ==> r.value == JoinWith(SplitOn(err.value, token), Redacted)
      ensures err.Some? && !Occurs(err.value, token) ==> r == err
      ensures err.Some? && OpenBracket !in token && CloseBracket !in token && !Occurs(Redacted, token) ==>
        !Occurs(r.value, token)
    {
      if err.None? then None
      else
        ReplaceIsSplitJoin(err.value, token, Redacted);
        ReplaceAbsent(err.value, token, Redacted);
        ReplaceLeavesNone(err.value, token, Redacted);
        Some(ReplaceAll(err.value, token, Redacted))
    }

    /** The "too long" reply, with `maxPromptLen` printed by `%d`: the
        prefix, then decimal digits whose value is the limit, then the
        suffix. */
    function TooLongReply(): (r: seq<byte>)
      ensures |texts.tooLongPrefix| + 1 + |texts.tooLongSuffix| <= |r|
      ensures r[..|texts.tooLongPrefix|] == texts.tooLongPrefix
      ensures r[|r| - |texts.tooLongSuffix|..] == texts.tooLongSuffix
      ensures var digits := r[|texts.tooLongPrefix|..|r| - |texts.tooLongSuffix|];
        IsDigits(digits) && DigitsValue(digits) == maxPromptLen
    {
      texts.tooLongPrefix + Decimal(maxPromptLen) + texts.tooLongSuffix
    }

    /** What `handleTextMessage` sends once the ack is out: the generic
        error, or the response's parts with the first one marked. */
    function ResponseSends(chatId: int, reply: BackendReply): (r: seq<Outbound>)
      ensures reply.Err? ==> |r| == 1
      ensures reply.Ok? ==> |r| == |Split(reply.text, replyLimit)|
    {
      match reply
      case Err => [Outbound(chatId, texts.failure)]
      case Ok(response) => SendAll(chatId, Decorate(Split(response, replyLimit), texts.continued))
    }

    /** What `handleTextMessage` sends after `checkRateLimit` answered
        `admitted`: the rejection, the "too long" reply, or the ack followed
        by the backend's answer. */
    function AnswerSends(admitted: bool, chatId: int, text: seq<byte>, reply: BackendReply): (r: seq<Outbound>)
      ensures |r| >= 1 && r[0].chatId == chatId
      ensures |r| > 1 ==> admitted && |text| <= maxPromptLen && r[0] == Outbound(chatId, texts.ack)
    {
      if !admitted then [Outbound(chatId, texts.tooMany)]
      else if |text| > maxPromptLen then [Outbound(chatId, TooLongReply())]
      else [Outbound(chatId, texts.ack)] + ResponseSends(chatId, reply)
    }

    /** `handleTextMessage`: rate limit first, then the length check, then
        the acknowledgement and the backend's answer. */
    function TextEffect(limiter: map<int, seq<int>>, chatId: int, text: seq<byte>, now: int, reply: BackendReply): (e: Effect)
      ensures e.limiter.Keys == limiter.Keys + {chatId}
      ensures |e.sends| >= 1 && e.sends[0].chatId == chatId
    {
      var verdict := Admit(Entries(limiter, chatId), now, rateWindow, maxRequests);
      Effect(AnswerSends(verdict.admitted, chatId, text, reply), limiter[chatId := verdict.stored])
    }

    /** `handleCommand`: the two fixed commands, anything else as text. */
    function CommandEffect(limiter: map<int, seq<int>>, chatId: int, command: seq<byte>, now: int, reply: BackendReply): (e: Effect)
      ensures limiter.Keys <= e.limiter.Keys
      ensures |e.sends| >= 1 && e.sends[0].chatId == chatId
      ensures command == StartCommand || command == HelpCommand ==> e == Effect(e.sends, limiter) && |e.sends| == 1
    {
      if command == StartCommand then Effect([Outbound(chatId, texts.start)], limiter)
      else if command == HelpCommand then Effect([Outbound(chatId, texts.help)], limiter)
      else TextEffect(limiter, chatId, command, now, reply)
    }

    /** `HandleMessage`. */
    function MessageEffect(limiter: map<int, seq<int>>, message: Option<Message>, now: int, reply: BackendReply): (e: Effect)
      ensures limiter.Keys <= e.limiter.Keys
      ensures e.sends != [] ==> message.Some? && message.value.chat.Some? && e.sends[0].chatId == message.value.chat.value
      ensures e.limiter != limiter ==> e.sends != []
    {
      if message.None? || message.value.chat.None? then Effect([], limiter)
      else if !IsUserAllowed(message.value) then Effect([], limiter)
      else
        var chatId, text := message.value.chat.value, message.value.text;
        if |text| > 0 && text[0] == Slash then CommandEffect(limiter, chatId, text, now, reply)
        else if text != [] then TextEffect(limiter, chatId, text, now, reply)
        else Effect([], limiter)
    }

    method SendMessage(chatId: int, text: seq<byte>)
      modifies this`outbox
      ensures outbox == old(outbox) + [Outbound(chatId, text)]
    {
      outbox := outbox + [Outbound(chatId, text)];
    }

    /** `checkRateLimit(key)` at time `now`. */
    method CheckRateLimit(key: int, now: int) returns (allowed: bool)
      requires Valid()
      modifies this`rateLimiter
      ensures Valid()
      ensures var verdict := Admit(Entries(old(rateLimiter), key), now, rateWindow, maxRequests);
        allowed == verdict.admitted && rateLimiter == old(rateLimiter)[key := verdict.stored]
      ensures allowed <==> CountAfter(Entries(old(rateLimiter), key), now - rateWindow) < maxRequests
      ensures forall i :: 0 <= i < |rateLimiter[key]| ==> now - rateWindow < rateLimiter[key][i]
      ensures old(OrderedUpTo(rateLimiter, now)) ==> OrderedUpTo(rateLimiter, now)
    {
      var stored := Entries(rateLimiter, key);
      var recent := Recent(stored, now - rateWindow);
      ghost var verdict := Admit(stored, now, rateWindow, maxRequests);
      AdmitDecision(stored, now, rateWindow, maxRequests);
      AdmitBounded(stored, now, rateWindow, maxRequests);
      AdmitKeepsWindow(stored, now, rateWindow, maxRequests);
      if OrderedUpTo(rateLimiter, now) {
        AdmitKeepsOrder(stored, now, rateWindow, maxRequests);
      }
      StoreKeeps(rateLimiter, key, verdict.stored, maxRequests, now);
      // over the limit: store the pruned list and refuse; otherwise record now
      allowed := |recent| < maxRequests;
      if allowed {
        recent := recent + [now];
      }
      rateLimiter := rateLimiter[key := recent];
    }

    /** The pruning loop of `checkRateLimit`: the stored timestamps after
        `windowStart`, in stored order. */
    static method Recent(stored: seq<int>, windowStart: int) returns (recent: seq<int>)
      ensures recent == Prune(stored, windowStart)
    {
      recent := [];
      for i := 0 to |stored|
        invariant recent == Prune(stored[..i], windowStart)
      {
        assert stored[..i + 1][..i] == stored[..i];
        if stored[i] > windowStart {
          recent := recent + [stored[i]];
        }
      }
      assert stored[..|stored|] == stored;
    }

    method HandleTextMessage(chatId: int, text: seq<byte>, now: int, reply: BackendReply)
      requires Valid()
      modifies this`rateLimiter, this`outbox
      ensures Valid()
      ensures var e := TextEffect(old(rateLimiter), chatId, text, now, reply);
        outbox == old(outbox) + e.sends && rateLimiter == e.limiter
    {
      var admitted := CheckRateLimit(chatId, now);
      Answer(admitted, chatId, text, reply);
    }

    /** The rest of `handleTextMessage`, once the rate limit has answered. */
    method Answer(admitted: bool, chatId: int, text: seq<byte>, reply: BackendReply)
      modifies this`outbox
      ensures outbox == old(outbox) + AnswerSends(admitted, chatId, text, reply)
    {
      if !admitted {
        SendMessage(chatId, texts.tooMany);
      } else if |text| > maxPromptLen {
        SendMessage(chatId, TooLongReply());
      } else {
        ghost var before := outbox;
        SendMessage(chatId, texts.ack);
        SendResponse(chatId, reply);
        Regroup(before, [Outbound(chatId, texts.ack)], ResponseSends(chatId, reply));
      }
    }

    /** The end of `handleTextMessage`, once the ack is sent. */
    method SendResponse(chatId: int, reply: BackendReply)
      modifies this`outbox
      ensures outbox == old(outbox) + ResponseSends(chatId, reply)
    {
      match reply {
        case Err =>
          SendMessage(chatId, texts.failure);
        case Ok(response) =>
          var parts := SplitMessage(response, replyLimit);
          SendParts(chatId, parts);
      }
    }

    /** The send loop over the parts. */
    method SendParts(chatId: int, parts: seq<seq<byte>>)
      modifies this`outbox
      ensures outbox == old(outbox) + SendAll(chatId, Decorate(parts, texts.continued))
    {
      ghost var decorated := Decorate(parts, texts.continued);
      for i := 0 to |parts|
        invariant outbox == old(outbox) + SendAll(chatId, decorated[..i])
      {
        var part := parts[i];
        if i == 0 && |parts| > 1 {
          part := part + texts.continued;
        }
        SendMessage(chatId, part);
        assert decorated[..i + 1] == decorated[..i] + [part];
      }
      assert decorated[..|parts|] == decorated;
    }

    method HandleCommand(chatId: int, command: seq<byte>, now: int, reply: BackendReply)
      requires Valid()
      modifies this`rateLimiter, this`outbox
      ensures Valid()
      ensures var e := CommandEffect(old(rateLimiter), chatId, command, now, reply);
        outbox == old(outbox) + e.sends && rateLimiter == e.limiter
    {
      if command == StartCommand {
        SendMessage(chatId, texts.start);
      } else if command == HelpCommand {
        SendMessage(chatId, texts.help);
      } else {
        HandleTextMessage(chatId, command, now, reply);
      }
    }

    method HandleMessage(message: Option<Message>, now: int, reply: BackendReply)
      requires Valid()
      modifies this`rateLimiter, this`outbox
      ensures Valid()
      ensures var e := MessageEffect(old(rateLimiter), message, now, reply);
        outbox == old(outbox) + e.sends && rateLimiter == e.limiter
    {
      if message.None? || message.value.chat.None? {
        return;
      }
      if !IsUserAllowed(message.value) {
        return;
      }
      var chatId, text := message.value.chat.value, message.value.text;
      if |text| > 0 && text[0] == Slash {
        HandleCommand(chatId, text, now, reply);
        return;
      }
      if text != [] {
        HandleTextMessage(chatId, text, now, reply);
      }
    }
  }

  /** A token of Telegram's `<id>:<secret>` form contains `:`, which
      "[REDACTED]" lacks; with no bracket in it, it is gone from every
      sanitized error text. */
  lemma TelegramTokenRedacted(bot: TelegramBot, err: seq<byte>)
    requires |bot.token| > 0 && Colon in bot.token
    requires OpenBracket !in bot.token && CloseBracket !in bot.token
    ensures !Occurs(bot.SanitizeError(Some(err)).value, bot.token)
  {
    var t := bot.token;
    var k :| 0 <= k < |t| && t[k] == Colon;
    forall i | 0 <= i && i + |t| <= |Redacted| ensures !OccursAt(Redacted, t, i) {
      assert Redacted[i..i + |t|][k] != Colon;
    }
    assert !Occurs(Redacted, t);
  }

  /** Concatenation of sends regroups freely. */
  lemma Regroup(a: seq<Outbound>, b: seq<Outbound>, c: seq<Outbound>)
    ensures a + b + c == a + (b + c)
  {
  }

  // ---------------------------------------------------------------------
  // Properties of the dispatch policy

  /** Where `HandleMessage` sends a message: nothing for a nil message or
      chat, nothing for a sender outside a non-empty allow list (commands
      included), the fixed reply for exactly "/start" or "/help" without
      touching the rate limiter, nothing for empty text, and every other
      text, slash or not, to `handleTextMessage` unchanged. */
  lemma MessageRouting(bot: TelegramBot, limiter: map<int, seq<int>>, message: Option<Message>, now: int, reply: BackendReply)
    ensures var e := bot.MessageEffect(limiter, message, now, reply);
      && (message.None? || message.value.chat.None? ==> e == Effect([], limiter))
      && (message.Some? && message.value.chat.Some? ==>
            var m := message.value;
            var chatId := m.chat.value;
            && (!bot.IsUserAllowed(m) ==> e == Effect([], limiter))
            && (bot.IsUserAllowed(m) ==>
                  && (m.text == StartCommand ==> e == Effect([Outbound(chatId, bot.texts.start)], limiter))
                  && (m.text == HelpCommand ==> e == Effect([Outbound(chatId, bot.texts.help)], limiter))
                  && (m.text == [] ==> e == Effect([], limiter))
                  && (m.text != [] && m.text != StartCommand && m.text != HelpCommand ==>
                        e == bot.TextEffect(limiter, chatId, m.text, now, reply))))
  {
  }

  /** The order of the checks in `handleTextMessage`. The rate limit is
      consulted first and always stores its list, so a prompt that is too
      long still uses up a slot; a rejected or too long prompt never reaches
      the backend; otherwise the ack goes out first and a backend error
      yields exactly one generic reply. */
  lemma TextPolicy(bot: TelegramBot, limiter: map<int, seq<int>>, chatId: int, text: seq<byte>, now: int, reply: BackendReply)
    ensures var e := bot.TextEffect(limiter, chatId, text, now, reply);
      var ts := Entries(limiter, chatId);
      var admitted := CountAfter(ts, now - bot.rateWindow) < bot.maxRequests;
      && (forall k :: k in e.limiter <==> k in limiter || k == chatId)
      && (forall k :: k in limiter && k != chatId ==> e.limiter[k] == limiter[k])
      && e.limiter[chatId] == (if admitted then Prune(ts, now - bot.rateWindow) + [now] else Prune(ts, now - bot.rateWindow))
      && (!admitted ==> e.sends == [Outbound(chatId, bot.texts.tooMany)])
      && (admitted && |text| > bot.maxPromptLen ==> e.sends == [Outbound(chatId, bot.TooLongReply())])
      && (admitted && |text| <= bot.maxPromptLen ==> e.sends[0] == Outbound(chatId, bot.texts.ack))
      && (admitted && |text| <= bot.maxPromptLen ==>
            e.sends == [Outbound(chatId, bot.texts.ack)] + bot.ResponseSends(chatId, reply))
      && (admitted && |text| <= bot.maxPromptLen && reply.Err? ==>
            e.sends == [Outbound(chatId, bot.texts.ack), Outbound(chatId, bot.texts.failure)])
  {
    AdmitDecision(Entries(limiter, chatId), now, bot.rateWindow, bot.maxRequests);
  }

  /** The backend's reply only matters once the prompt passed both checks. */
  lemma BackendOnlyWhenAdmitted(bot: TelegramBot, limiter: map<int, seq<int>>, chatId: int, text: seq<byte>, now: int,
                                reply1: BackendReply, reply2: BackendReply)
    requires CountAfter(Entries(limiter, chatId), now - bot.rateWindow) >= bot.maxRequests || |text| > bot.maxPromptLen
    ensures bot.TextEffect(limiter, chatId, text, now, reply1) == bot.TextEffect(limiter, chatId, text, now, reply2)
  {
    AdmitDecision(Entries(limiter, chatId), now, bot.rateWindow, bot.maxRequests);
    var verdict := Admit(Entries(limiter, chatId), now, bot.rateWindow, bot.maxRequests);
    assert !verdict.admitted || |text| > bot.maxPromptLen;
    assert bot.AnswerSends(verdict.admitted, chatId, text, reply1) == bot.AnswerSends(verdict.admitted, chatId, text, reply2);
  }

  /** A successful answer after the ack: one send per part of
      `SplitMessage(response, 4000)`, in order, all to the chat; the marker
      is on the first part only and only when there are several, so that
      first message may be longer than 4000 bytes while every later one is a
      non-empty part of at most 4000 bytes that does not start blank. */
  lemma ResponseDelivery(bot: TelegramBot, chatId: int, response: seq<byte>)
    requires bot.replyLimit > 0
    ensures var sends := bot.ResponseSends(chatId, Ok(response));
      var parts := Split(response, bot.replyLimit);
      && |sends| == |parts|
      && (forall i :: 0 <= i < |sends| ==> sends[i].chatId == chatId)
      && (|parts| == 1 ==> sends[0].text == parts[0])
      && (|parts| > 1 ==> sends[0].text == parts[0] + bot.texts.continued)
      && (forall i :: 1 <= i < |sends| ==> sends[i].text == parts[i])
      && (|parts| > 0 ==> |sends[0].text| <= bot.replyLimit + |bot.texts.continued|)
      && (forall i :: 1 <= i < |sends| ==> 0 < |sends[i].text| <= bot.replyLimit && !IsBlank(sends[i].text[0]))
  {
    var parts := Split(response, bot.replyLimit);
    var sends := bot.ResponseSends(chatId, Ok(response));
    DecoratedSends(chatId, parts, bot.texts.continued);
    SplitBounded(response, bot.replyLimit);
    LaterChunksStartNonBlank(response, bot.replyLimit);
    if |parts| > 0 {
      assert parts[0] in parts;
    }
    forall i | 1 <= i < |sends| ensures 0 < |sends[i].text| <= bot.replyLimit {
      assert parts[i] in parts;
    }
  }

  /** The sends of decorated parts: one per part, to the chat, the marker on
      the first only when there are several. */
  lemma DecoratedSends(chatId: int, parts: seq<seq<byte>>, marker: seq<byte>)
    ensures var sends := SendAll(chatId, Decorate(parts, marker));
      && |sends| == |parts|
      && (forall i :: 0 <= i < |sends| ==> sends[i].chatId == chatId)
      && (forall i :: 0 <= i < |sends| ==> sends[i].text == if i == 0 && |parts| > 1 then parts[0] + marker else parts[i])
  {
  }

  /** The message texts of one successful answer, with the marker taken off
      the first, interleaved with the blank runs the splitter dropped, give
      back the whole response. */
  lemma ResponseComplete(bot: TelegramBot, chatId: int, response: seq<byte>)
    ensures var sends := bot.ResponseSends(chatId, Ok(response));
      var parts := Split(response, bot.replyLimit);
      && |sends| == |parts| == |Gaps(response, bot.replyLimit)|
      && Rejoin(parts, Gaps(response, bot.replyLimit)) == response
      && (forall i :: 1 <= i < |sends| ==> sends[i].text == parts[i])
      && (|parts| > 1 ==> sends[0].text == parts[0] + bot.texts.continued)
  {
    SplitReconstructs(response, bot.replyLimit);
  }

  /** Handling a text changes only the chat's own list, and keeps the
      rate-limiter invariants: no list over `maxRequests`, and (with a
      positive window) sorted lists with nothing later than the clock. */
  lemma TextLimiter(bot: TelegramBot, limiter: map<int, seq<int>>, chatId: int, text: seq<byte>, now: int, reply: BackendReply)
    ensures var after := bot.TextEffect(limiter, chatId, text, now, reply).limiter;
      && (forall k :: k in limiter ==> k in after)
      && (forall k :: k in after && k != chatId ==> k in limiter && after[k] == limiter[k])
      && (Bounded(limiter, bot.maxRequests) ==> Bounded(after, bot.maxRequests))
      && (bot.rateWindow > 0 && OrderedUpTo(limiter, now) ==> OrderedUpTo(after, now))
  {
    var ts := Entries(limiter, chatId);
    var after := limiter[chatId := Admit(ts, now, bot.rateWindow, bot.maxRequests).stored];
    assert bot.TextEffect(limiter, chatId, text, now, reply).limiter == after;
    if Bounded(limiter, bot.maxRequests) {
      AdmitBounded(ts, now, bot.rateWindow, bot.maxRequests);
    }
    if bot.rateWindow > 0 && OrderedUpTo(limiter, now) {
      AdmitKeepsOrder(ts, now, bot.rateWindow, bot.maxRequests);
      AdmitKeepsWindow(ts, now, bot.rateWindow, bot.maxRequests);
    }
  }

  /** The same for a whole message: only the list of the message's chat
      can change, and only when the message reaches `handleTextMessage`. */
  lemma MessageLimiter(bot: TelegramBot, limiter: map<int, seq<int>>, message: Option<Message>, now: int, reply: BackendReply)
    ensures var after := bot.MessageEffect(limiter, message, now, reply).limiter;
      && (forall k :: k in limiter ==> k in after)
      && (forall k :: k in after && (message.None? || message.value.chat != Some(k)) ==>
            k in limiter && after[k] == limiter[k])
      && (Bounded(limiter, bot.maxRequests) ==> Bounded(after, bot.maxRequests))
      && (bot.rateWindow > 0 && OrderedUpTo(limiter, now) ==> OrderedUpTo(after, now))
  {
    MessageRouting(bot, limiter, message, now, reply);
    if message.Some? && message.value.chat.Some? {
      TextLimiter(bot, limiter, message.value.chat.value, message.value.text, now, reply);
    }
  }

  /** A later clock reading keeps the lists ordered. */
  lemma OrderedLater(limiter: map<int, seq<int>>, now: int, later: int)
    requires OrderedUpTo(limiter, now) && now <= later
    ensures OrderedUpTo(limiter, later)
  {
  }

  /** The default "too long" reply prints the limit 4096. */
  lemma DefaultTooLongReply(bot: TelegramBot)
    requires bot.maxPromptLen == 4096
    ensures bot.TooLongReply() == bot.texts.tooLongPrefix + [52, 48, 57, 54] + bot.texts.tooLongSuffix
  {
    assert Decimal(4096) == [52, 48, 57, 54] by {
      assert Decimal(40) == [52, 48];
      assert Decimal(409) == [52, 48, 57];
    }
  }

  /** An allowed user's first prompt, answered with 4500 bytes without
      spaces or newlines: the ack, then 4000 bytes with the marker, then the
      last 500; the chat's list now holds the one request. */
  lemma LongReplyExample(bot: TelegramBot, user: int, chatId: int, prompt: seq<byte>, now: int, response: seq<byte>)
    requires user in bot.allowedUsers && bot.maxRequests > 0 && bot.replyLimit == ReplyLimit
    requires 0 < |prompt| <= bot.maxPromptLen && prompt[0] != Slash
    requires |response| == 4500 && forall i :: 0 <= i < |response| ==> !IsBlank(response[i])
    ensures bot.MessageEffect(map[], Some(Message(Some(user), Some(chatId), prompt)), now, Ok(response))
      == Effect([Outbound(chatId, bot.texts.ack),
                 Outbound(chatId, response[..4000] + bot.texts.continued),
                 Outbound(chatId, response[4000..])],
                map[chatId := [now]])
  {
    HardCutExample(response);
    var parts := [response[..4000], response[4000..]];
    assert Decorate(parts, bot.texts.continued) == [response[..4000] + bot.texts.continued, response[4000..]];
    assert Admit([], now, bot.rateWindow, bot.maxRequests) == Verdict(true, [now]);
  }

  /** With the bot's own texts, the first message of that answer carries
      the 44-byte marker and is therefore longer than the splitter's limit. */
  lemma MarkedPartLength(bot: TelegramBot, user: int, chatId: int, prompt: seq<byte>, now: int, response: seq<byte>)
    requires bot.texts == Catalog
    requires user in bot.allowedUsers && bot.maxRequests > 0 && bot.replyLimit == ReplyLimit
    requires 0 < |prompt| <= bot.maxPromptLen && prompt[0] != Slash
    requires |response| == 4500 && forall i :: 0 <= i < |response| ==> !IsBlank(response[i])
    ensures |Catalog.continued| == 44
    ensures var sends := bot.MessageEffect(map[], Some(Message(Some(user), Some(chatId), prompt)), now, Ok(response)).sends;
      |sends| == 3 && |sends[1].text| == 4044 && |sends[1].text| > bot.replyLimit
  {
    LongReplyExample(bot, user, chatId, prompt, now, response);
  }
}
