/** One turn of the polling loop in `main` (main.go): fetch a batch of
    updates, then, for each update in the order delivered, raise
    `LastUpdate` to its id when that is larger and hand its message, if
    any, to `HandleMessage`. The fetch itself is an input: a batch or an
    error. */
module Intake {
  import opened Base
  import opened Telegram

  /** What `GetUpdates` returned. */
  datatype FetchResult = Fetched(updates: seq<Update>) | FetchError

  /** What handling one update sees from outside: the clock reading and the
      backend's answer (used only when its text reaches the backend). */
  datatype Env = Env(now: int, reply: BackendReply)

  /** `LastUpdate` after the ids of `updates` were folded in, in order. */
  function Watermark(last: int, updates: seq<Update>): (r: int)
    ensures r >= last
    decreases |updates|
  {
    if updates == [] then last
    else
      var prev := Watermark(last, updates[..|updates| - 1]);
      var id := updates[|updates| - 1].updateId;
      if id > prev then id else prev
  }

  /** The watermark is the largest of `last` and the ids. */
  lemma {:induction false} WatermarkIsMax(last: int, updates: seq<Update>)
    ensures forall i :: 0 <= i < |updates| ==> updates[i].updateId <= Watermark(last, updates)
    ensures Watermark(last, updates) == last || exists i :: 0 <= i < |updates| && updates[i].updateId == Watermark(last, updates)
    decreases |updates|
  {
    if updates != [] {
      var n := |updates| - 1;
      WatermarkIsMax(last, updates[..n]);
      assert forall i :: 0 <= i < n ==> updates[..n][i] == updates[i];
    }
  }

  /** The offset the next `GetUpdates` asks for. */
  function FetchOffset(last: int): (r: int)
    ensures r > last
  {
    last + 1
  }

  lemma WatermarkPrefix(last: int, updates: seq<Update>, i: int)
    requires 0 <= i < |updates|
    ensures var prev := Watermark(last, updates[..i]);
      Watermark(last, updates[..i + 1]) == if updates[i].updateId > prev then updates[i].updateId else prev
  {
    assert updates[..i + 1][..i] == updates[..i];
  }

  /** One turn of the inner loop after `prev`: an update with a message is
      handled from the limiter `prev` left, and its sends follow `prev`'s. */
  function Step(bot: TelegramBot, prev: Effect, update: Update, env: Env): (e: Effect)
    ensures update.message.None? ==> e == prev
    ensures prev.limiter.Keys <= e.limiter.Keys
  {
    if update.message.None? then prev
    else
      var e := bot.MessageEffect(prev.limiter, update.message, env.now, env.reply);
      Effect(prev.sends + e.sends, e.limiter)
  }

  /** What the batch loop does to the rate limiter and the outbox: the
      messages of the updates that have one are handled one after another,
      each seeing the limiter the previous one left. */
  function BatchEffect(bot: TelegramBot, limiter: map<int, seq<int>>, updates: seq<Update>, envs: seq<Env>): (e: Effect)
    requires |envs| == |updates|
    ensures limiter.Keys <= e.limiter.Keys
    decreases |updates|
  {
    if updates == [] then Effect([], limiter)
    else
      var n := |updates| - 1;
      Step(bot, BatchEffect(bot, limiter, updates[..n], envs[..n]), updates[n], envs[n])
  }

  lemma BatchPrefix(bot: TelegramBot, limiter: map<int, seq<int>>, updates: seq<Update>, envs: seq<Env>, i: int)
    requires |envs| == |updates| && 0 <= i < |updates|
    ensures BatchEffect(bot, limiter, updates[..i + 1], envs[..i + 1])
      == Step(bot, BatchEffect(bot, limiter, updates[..i], envs[..i]), updates[i], envs[i])
  {
    assert updates[..i + 1][..i] == updates[..i];
    assert envs[..i + 1][..i] == envs[..i];
  }

  /** One turn of the loop. A fetch error changes nothing. Otherwise
      `lastUpdate` ends at the batch's watermark, the messages are handled
      in delivery order, and `marks[i]`, the watermark at the moment update
      `i` is dispatched, already covers that update's id. */
  method PollOnce(bot: TelegramBot, fetched: FetchResult, envs: seq<Env>) returns (ghost marks: seq<int>)
    requires bot.Valid()
    requires fetched.Fetched? ==> |envs| == |fetched.updates|
    modifies bot`lastUpdate, bot`rateLimiter, bot`outbox
    ensures bot.Valid()
    ensures bot.lastUpdate >= old(bot.lastUpdate)
    ensures fetched.FetchError? ==>
      bot.lastUpdate == old(bot.lastUpdate) && bot.rateLimiter == old(bot.rateLimiter) && bot.outbox == old(bot.outbox)
    ensures fetched.Fetched? ==>
      var e := BatchEffect(bot, old(bot.rateLimiter), fetched.updates, envs);
      && bot.lastUpdate == Watermark(old(bot.lastUpdate), fetched.updates)
      && bot.outbox == old(bot.outbox) + e.sends
      && bot.rateLimiter == e.limiter
      && |marks| == |fetched.updates|
      && forall i :: 0 <= i < |marks| ==>
           marks[i] == Watermark(old(bot.lastUpdate), fetched.updates[..i + 1])
           && marks[i] >= fetched.updates[i].updateId
  {
    marks := [];
    if fetched.FetchError? {
      return;
    }
    var updates := fetched.updates;
    for i := 0 to |updates|
      invariant bot.Valid()
      invariant bot.lastUpdate == Watermark(old(bot.lastUpdate), updates[..i])
      invariant var e := BatchEffect(bot, old(bot.rateLimiter), updates[..i], envs[..i]);
        bot.outbox == old(bot.outbox) + e.sends && bot.rateLimiter == e.limiter
      invariant |marks| == i
      invariant forall j :: 0 <= j < i ==> marks[j] == Watermark(old(bot.lastUpdate), updates[..j + 1])
    {
      ghost var before := BatchEffect(bot, old(bot.rateLimiter), updates[..i], envs[..i]);
      BatchPrefix(bot, old(bot.rateLimiter), updates, envs, i);
      WatermarkPrefix(old(bot.lastUpdate), updates, i);
      var update := updates[i];
      if update.updateId > bot.lastUpdate {
        bot.lastUpdate := update.updateId;
      }
      marks := marks + [bot.lastUpdate];
      Dispatch(bot, old(bot.outbox), before, update, envs[i]);
    }
    assert updates[..|updates|] == updates;
    assert envs[..|updates|] == envs;
    forall i | 0 <= i < |marks| ensures marks[i] >= updates[i].updateId {
      WatermarkIsMax(old(bot.lastUpdate), updates[..i + 1]);
      assert updates[..i + 1][i] == updates[i];
    }
  }

  /** The body of the inner loop past the watermark: hand the update's
      message, if any, to `HandleMessage`. It may only run once the
      update's id has been folded into `lastUpdate`. */
  method Dispatch(bot: TelegramBot, ghost base: seq<Outbound>, ghost before: Effect, update: Update, env: Env)
    requires bot.Valid()
    requires bot.lastUpdate >= update.updateId
    requires bot.outbox == base + before.sends && bot.rateLimiter == before.limiter
    modifies bot`rateLimiter, bot`outbox
    ensures bot.Valid()
    ensures var e := Step(bot, before, update, env);
      bot.outbox == base + e.sends && bot.rateLimiter == e.limiter
  {
    if update.message.Some? {
      bot.HandleMessage(update.message, env.now, env.reply);
      ghost var e := bot.MessageEffect(before.limiter, update.message, env.now, env.reply);
      Regroup(base, before.sends, e.sends);
    }
  }


  // ---------------------------------------------------------------------
  // Properties of the batch loop

  /** The ids 3, 1, 4 raise the watermark from 0 to 4; the next fetch asks
      for offset 5. */
  lemma WatermarkExample()
    ensures Watermark(0, [Update(3, None), Update(1, None), Update(4, None)]) == 4
    ensures FetchOffset(Watermark(0, [Update(3, None), Update(1, None), Update(4, None)])) == 5
  {
    var us := [Update(3, None), Update(1, None), Update(4, None)];
    assert us[..2][..1] == [Update(3, None)];
    assert us[..2] == [Update(3, None), Update(1, None)];
    assert Watermark(0, us[..2][..1]) == 3;
  }

  /** After a batch the next offset lies past every id in it, so a fetch
      that returns only updates from the offset on will not deliver any of
      them again. */
  lemma OffsetPastBatch(last: int, updates: seq<Update>)
    ensures FetchOffset(Watermark(last, updates)) > last
    ensures forall i :: 0 <= i < |updates| ==> updates[i].updateId < FetchOffset(Watermark(last, updates))
  {
    WatermarkIsMax(last, updates);
  }

  /** Two batches in a row raise the watermark as their concatenation does. */
  lemma {:induction false} WatermarkConcat(last: int, a: seq<Update>, b: seq<Update>)
    ensures Watermark(last, a + b) == Watermark(Watermark(last, a), b)
    decreases |b|
  {
    if b == [] {
      assert a + b == a;
    } else {
      var n := |b| - 1;
      assert (a + b)[..|a + b| - 1] == a + b[..n];
      WatermarkConcat(last, a, b[..n]);
    }
  }

  /** Handling a batch is handling its first part, then the rest from the
      limiter the first part left: earlier updates' messages go out first. */
  lemma {:induction false} BatchConcat(bot: TelegramBot, limiter: map<int, seq<int>>,
                                       a: seq<Update>, b: seq<Update>, ea: seq<Env>, eb: seq<Env>)
    requires |ea| == |a| && |eb| == |b|
    ensures var first := BatchEffect(bot, limiter, a, ea);
      var second := BatchEffect(bot, first.limiter, b, eb);
      BatchEffect(bot, limiter, a + b, ea + eb) == Effect(first.sends + second.sends, second.limiter)
    decreases |b|
  {
    if b == [] {
      assert a + b == a && ea + eb == ea;
    } else {
      var n := |b| - 1;
      assert (a + b)[..|a + b| - 1] == a + b[..n];
      assert (ea + eb)[..|ea + eb| - 1] == ea + eb[..n];
      assert (a + b)[|a + b| - 1] == b[n];
      assert (ea + eb)[|ea + eb| - 1] == eb[n];
      BatchConcat(bot, limiter, a, b[..n], ea, eb[..n]);
      var first := BatchEffect(bot, limiter, a, ea);
      StepAfter(bot, first.sends, BatchEffect(bot, first.limiter, b[..n], eb[..n]), b[n], eb[n]);
    }
  }

  /** Sends already out before a step stay in front of the step's own. */
  lemma StepAfter(bot: TelegramBot, earlier: seq<Outbound>, prev: Effect, update: Update, env: Env)
    ensures var later := Step(bot, prev, update, env);
      Step(bot, Effect(earlier + prev.sends, prev.limiter), update, env) == Effect(earlier + later.sends, later.limiter)
  {
    if update.message.Some? {
      var e := bot.MessageEffect(prev.limiter, update.message, env.now, env.reply);
      assert earlier + prev.sends + e.sends == earlier + (prev.sends + e.sends);
    }
  }

  /** Updates without a message advance the watermark but send nothing and
      leave the limiter alone. */
  lemma {:induction false} EmptyUpdatesIgnored(bot: TelegramBot, limiter: map<int, seq<int>>, updates: seq<Update>, envs: seq<Env>)
    requires |envs| == |updates|
    requires forall i :: 0 <= i < |updates| ==> updates[i].message.None?
    ensures BatchEffect(bot, limiter, updates, envs) == Effect([], limiter)
    decreases |updates|
  {
    if updates != [] {
      var n := |updates| - 1;
      EmptyUpdatesIgnored(bot, limiter, updates[..n], envs[..n]);
    }
  }

  /** With a clock that does not go backwards over the batch, the limiter's
      lists stay sorted and bounded by the last clock reading. */
  lemma {:induction false} BatchKeepsOrder(bot: TelegramBot, limiter: map<int, seq<int>>, updates: seq<Update>, envs: seq<Env>, start: int)
    requires |envs| == |updates| && bot.rateWindow > 0
    requires OrderedUpTo(limiter, start)
    requires forall i :: 0 <= i < |envs| ==> start <= envs[i].now
    requires forall i, j :: 0 <= i < j < |envs| ==> envs[i].now <= envs[j].now
    ensures OrderedUpTo(BatchEffect(bot, limiter, updates, envs).limiter, if envs == [] then start else envs[|envs| - 1].now)
    decreases |updates|
  {
    if updates != [] {
      var n := |updates| - 1;
      BatchKeepsOrder(bot, limiter, updates[..n], envs[..n], start);
      var prev := BatchEffect(bot, limiter, updates[..n], envs[..n]);
      var before := if n == 0 then start else envs[n - 1].now;
      OrderedLater(prev.limiter, before, envs[n].now);
      MessageLimiter(bot, prev.limiter, updates[n].message, envs[n].now, envs[n].reply);
    }
  }
}
