/** The two loops that drive the cache: a chat over several prompts, and perplexity evaluation token
    by token. A token stands for the key and value entries computed for it: by ChatMirrored and
    EvaluationMirrored the sequences here are the tokens at the positions that KvCache.RunSeq holds in
    the same run, and by KvCache.Run every K and every V of every layer holds those positions. */
module StreamingRuns {
  import opened KvCache

  type Token = nat

  datatype Option<T> = None | Some(value: T)

  // ----- chat (run_streaming_llama.py)

  /** One prompt with what was generated for it. Every generated token but the last is fed back. */
  datatype Turn = Turn(prompt: seq<Token>, generated: seq<Token>) {
    function Fed(): seq<Token> {
      if generated == [] then prompt else prompt + generated[..|generated| - 1]
    }
  }

  /** The model picks a next token from the cached tokens and the tokens of the forward pass. */
  type Model = (seq<Token>, seq<Token>) -> Token

  /** Each generated token is the model's choice after all the tokens before it. */
  ghost predicate Chosen(model: Model, cache: seq<Token>, prompt: seq<Token>, generated: seq<Token>) {
    var n := |generated| - 1;
    if n < 0 then true
    else if n == 0 then generated[0] == model(cache, prompt)
    else
      && Chosen(model, cache, prompt, generated[..n])
      && generated[n] == model(cache + prompt + generated[..n - 1], [generated[n - 1]])
  }

  lemma {:induction false} ChosenAt(model: Model, cache: seq<Token>, prompt: seq<Token>, generated: seq<Token>, i: nat)
    requires Chosen(model, cache, prompt, generated) && i < |generated|
    ensures generated[i] == if i == 0 then model(cache, prompt)
                            else model(cache + prompt + generated[..i - 1], [generated[i - 1]])
  {
    var n := |generated| - 1;
    if 0 < n && i < n {
      ChosenAt(model, cache, prompt, generated[..n], i);
      if i > 0 { assert generated[..n][..i - 1] == generated[..i - 1]; }
    }
  }

  /** What a turn generates, and what it feeds, in terms of the model alone. */
  lemma GreedyTurnMeans(model: Model, eos: Token, maxGenLen: int, cache: seq<Token>, t: Turn)
    requires GreedyTurn(model, eos, maxGenLen, cache, t)
    ensures var g := t.generated;
      && 2 <= |g| <= maxGenLen && g[0] == model(cache, t.prompt)
      && (forall i :: 1 <= i < |g| ==> g[i] == model(cache + t.prompt + g[..i - 1], [g[i - 1]]))
      && (forall i :: 1 <= i < |g| - 1 ==> g[i] != eos)
      && (|g| == maxGenLen || g[|g| - 1] == eos)
      && t.Fed() == t.prompt + g[..|g| - 1]
  {
    ChosenAt(model, cache, t.prompt, t.generated, 0);
    forall i | 1 <= i < |t.generated|
      ensures t.generated[i] == model(cache + t.prompt + t.generated[..i - 1], [t.generated[i - 1]])
    {
      ChosenAt(model, cache, t.prompt, t.generated, i);
    }
  }

  /** Greedy decoding: it stops at maxGenLen tokens, or earlier at the first end-of-sequence token
      after the first token. */
  ghost predicate GreedyTurn(model: Model, eos: Token, maxGenLen: int, cache: seq<Token>, t: Turn) {
    var n := |t.generated| - 1;
    && 1 <= n < maxGenLen
    && Chosen(model, cache, t.prompt, t.generated)
    && (forall i :: 1 <= i < n ==> t.generated[i] != eos)
    && (n + 1 < maxGenLen ==> t.generated[n] == eos)
  }

  datatype Failure = UnboundLocalError

  datatype Outcome<T> = Success(value: T) | Raised(failure: Failure)

  /** With maxGenLen below 2 the loop never defines the text that is printed after it. */
  method GreedyGenerate(model: Model, eos: Token, inputIds: seq<Token>, past: seq<Token>, maxGenLen: int)
    returns (r: Outcome<(seq<Token>, seq<Token>)>)
    ensures r.Success? <==> maxGenLen >= 2
    ensures r.Success? ==> var (cache, generated) := r.value;
      && GreedyTurn(model, eos, maxGenLen, past, Turn(inputIds, generated))
      && cache == past + Turn(inputIds, generated).Fed()
    ensures r.Success? ==> var (cache, generated) := r.value;
      |generated| >= 2 && cache == past + inputIds + generated[..|generated| - 1]
  {
    FirstChoice(model, past, inputIds);
    hide Chosen, Turn.Fed;
    var cache := past + inputIds;
    var pred := model(past, inputIds);
    var generated := [pred];
    var textDefined := false;
    for n := 0 to if maxGenLen > 1 then maxGenLen - 1 else 0
      invariant |generated| == n + 1 && pred == generated[n]
      invariant textDefined == (n > 0)
      invariant cache == past + inputIds + generated[..n]
      invariant Chosen(model, past, inputIds, generated)
      invariant forall i :: 1 <= i <= n ==> generated[i] != eos
    {
      var next := model(cache, [pred]);
      OneMoreChoice(model, past, inputIds, generated, next);
      AllButLast(generated, next);
      cache := cache + [pred];
      generated := generated + [next];
      pred := next;
      textDefined := true;
      if pred == eos {
        break;
      }
    }
    if !textDefined {
      return Raised(UnboundLocalError);
    }
    CacheIsFed(past, inputIds, generated);
    return Success((cache, generated));
  }

  lemma CacheIsFed(past: seq<Token>, prompt: seq<Token>, generated: seq<Token>)
    requires generated != []
    ensures past + prompt + generated[..|generated| - 1] == past + Turn(prompt, generated).Fed()
  {
    assert past + (prompt + generated[..|generated| - 1]) == past + prompt + generated[..|generated| - 1];
  }

  lemma FirstChoice(model: Model, cache: seq<Token>, prompt: seq<Token>)
    ensures Chosen(model, cache, prompt, [model(cache, prompt)])
  {
  }

  lemma AllButLast(generated: seq<Token>, next: Token)
    requires generated != []
    ensures (generated + [next])[..|generated|] == generated[..|generated| - 1] + [generated[|generated| - 1]]
  {
  }

  lemma OneMoreChoice(model: Model, cache: seq<Token>, prompt: seq<Token>, generated: seq<Token>, next: Token)
    requires generated != [] && Chosen(model, cache, prompt, generated)
    requires var n := |generated| - 1; next == model(cache + prompt + generated[..n], [generated[n]])
    ensures Chosen(model, cache, prompt, generated + [next])
  {
    var more, n := generated + [next], |generated| - 1;
    assert more[..n + 1] == generated && more[..n] == generated[..n];
  }

  /** Room is made only when there is a cache policy. */
  function MakeRoomFor(c: Option<StartRecent>, cache: seq<Token>, spaceNeeded: nat): seq<Token> {
    match c case None => cache case Some(kv) => kv.EvictForSpaceSeq(cache, spaceNeeded)
  }

  /** The cache after some turns. */
  function ChatCache(c: Option<StartRecent>, maxGenLen: nat, turns: seq<Turn>): seq<Token>
    decreases |turns|, 0
  {
    if turns == [] then [] else
    RoomBefore(c, maxGenLen, turns[..|turns| - 1], |turns[|turns| - 1].prompt|) + turns[|turns| - 1].Fed()
  }

  /** All tokens fed in some turns. */
  function History(turns: seq<Turn>): seq<Token> {
    if turns == [] then [] else History(turns[..|turns| - 1]) + turns[|turns| - 1].Fed()
  }

  function Prompts(turns: seq<Turn>): seq<seq<Token>> {
    if turns == [] then [] else Prompts(turns[..|turns| - 1]) + [turns[|turns| - 1].prompt]
  }

  /** The prompts are those of the turns; the history is every prompt with all of its generated tokens but the last. */
  lemma TurnAt(turns: seq<Turn>, i: nat)
    requires i < |turns|
    ensures |Prompts(turns)| == |turns| && Prompts(turns)[i] == turns[i].prompt
    ensures turns[i].generated != [] ==>
      History(turns[..i + 1]) == History(turns[..i]) + turns[i].prompt + turns[i].generated[..|turns[i].generated| - 1]
    ensures History([]) == []
  {
    PromptsAt(turns, i);
    hide Prompts;
    assert turns[..i + 1][..i] == turns[..i];
    if turns[i].generated != [] {
      var fed := turns[i].generated[..|turns[i].generated| - 1];
      assert History(turns[..i]) + (turns[i].prompt + fed) == History(turns[..i]) + turns[i].prompt + fed;
    }
  }

  lemma {:induction false} PromptsAt(turns: seq<Turn>, i: nat)
    requires i < |turns|
    ensures |Prompts(turns)| == |turns| && Prompts(turns)[i] == turns[i].prompt
  {
    var n := |turns| - 1;
    if i < n {
      PromptsAt(turns[..n], i);
    } else if n > 0 {
      PromptsAt(turns[..n], 0);
    }
  }

  /** Any turn of a chat: room is made for the prompt and maxGenLen tokens, the model generates greedily
      from what is left, and everything but the last token stays in the cache. */
  lemma {:induction false} ChatAt(c: Option<StartRecent>, model: Model, eos: Token, maxGenLen: nat, turns: seq<Turn>,
                                  i: nat)
    requires Chat(c, model, eos, maxGenLen, turns) && i < |turns|
    ensures ChatCache(c, maxGenLen, turns[..0]) == []
    ensures var before, t := ChatCache(c, maxGenLen, turns[..i]), turns[i];
      var room := if c.None? then before else c.value.EvictForSpaceSeq(before, |t.prompt| + maxGenLen);
      && GreedyTurn(model, eos, maxGenLen, room, t)
      && ChatCache(c, maxGenLen, turns[..i + 1]) == room + t.Fed()
  {
    hide GreedyTurn, StartRecent.EvictForSpaceSeq, Turn.Fed;
    var n := |turns| - 1;
    if i < n {
      ChatAt(c, model, eos, maxGenLen, turns[..n], i);
      assert turns[..n][..i] == turns[..i] && turns[..n][..i + 1] == turns[..i + 1];
    } else {
      assert turns[..i + 1] == turns;
    }
  }

  /** A chat: every turn is greedy from the cache that room was made in before it. */
  ghost predicate Chat(c: Option<StartRecent>, model: Model, eos: Token, maxGenLen: nat, turns: seq<Turn>) {
    turns == [] ||
    var before, t := turns[..|turns| - 1], turns[|turns| - 1];
    && Chat(c, model, eos, maxGenLen, before)
    && GreedyTurn(model, eos, maxGenLen, RoomBefore(c, maxGenLen, before, |t.prompt|), t)
  }

  function RoomBefore(c: Option<StartRecent>, maxGenLen: nat, turns: seq<Turn>, promptLen: nat): seq<Token>
    decreases |turns|, 1
  {
    MakeRoomFor(c, ChatCache(c, maxGenLen, turns), promptLen + maxGenLen)
  }

  /** The turns are a chat with these prompts, and the cache is what the chat leaves. */
  ghost predicate Chatted(c: Option<StartRecent>, model: Model, eos: Token, maxGenLen: nat, prompts: seq<seq<Token>>,
                          turns: seq<Turn>, cache: seq<Token>)
  {
    && Prompts(turns) == prompts
    && Chat(c, model, eos, maxGenLen, turns)
    && cache == ChatCache(c, maxGenLen, turns)
  }

  method StreamingInference(model: Model, eos: Token, prompts: seq<seq<Token>>, c: Option<StartRecent>, maxGenLen: nat)
    returns (r: Outcome<(seq<Token>, seq<Turn>)>)
    ensures r.Success? <==> prompts == [] || maxGenLen >= 2
    ensures r.Success? ==> Chatted(c, model, eos, maxGenLen, prompts, r.value.1, r.value.0)
    ensures r.Success? ==>
      |r.value.1| == |prompts| && forall i :: 0 <= i < |prompts| ==> r.value.1[i].prompt == prompts[i]
  {
    hide *;
    var past: seq<Token> := [];
    var turns: seq<Turn> := [];
    NothingChatted(c, model, eos, maxGenLen);
    for idx := 0 to |prompts|
      invariant Chatted(c, model, eos, maxGenLen, prompts[..idx], turns, past)
      invariant idx > 0 ==> maxGenLen >= 2
    {
      var step := InferenceTurn(model, eos, prompts[idx], past, c, maxGenLen, prompts[..idx], turns);
      if step.Raised? {
        return Raised(step.failure);
      }
      past, turns := step.value.0, turns + [step.value.1];
      assert prompts[..idx + 1] == prompts[..idx] + [prompts[idx]];
    }
    assert prompts[..|prompts|] == prompts;
    PromptsKept(c, model, eos, maxGenLen, prompts, turns, past);
    return Success((past, turns));
  }

  lemma NothingChatted(c: Option<StartRecent>, model: Model, eos: Token, maxGenLen: nat)
    ensures Chatted(c, model, eos, maxGenLen, [], [], [])
  {
  }

  lemma PromptsKept(c: Option<StartRecent>, model: Model, eos: Token, maxGenLen: nat, prompts: seq<seq<Token>>,
                    turns: seq<Turn>, cache: seq<Token>)
    requires Chatted(c, model, eos, maxGenLen, prompts, turns, cache)
    ensures |turns| == |prompts| && forall i :: 0 <= i < |prompts| ==> turns[i].prompt == prompts[i]
  {
    forall i | 0 <= i < |turns|
      ensures |Prompts(turns)| == |turns| && Prompts(turns)[i] == turns[i].prompt
    {
      PromptsAt(turns, i);
    }
  }

  /** The body of the loop over the prompts. */
  method InferenceTurn(model: Model, eos: Token, inputIds: seq<Token>, past: seq<Token>, c: Option<StartRecent>,
                       maxGenLen: nat, ghost prompts: seq<seq<Token>>, ghost turns: seq<Turn>)
    returns (r: Outcome<(seq<Token>, Turn)>)
    requires Chatted(c, model, eos, maxGenLen, prompts, turns, past)
    ensures r.Success? <==> maxGenLen >= 2
    ensures r.Success? ==>
      Chatted(c, model, eos, maxGenLen, prompts + [inputIds], turns + [r.value.1], r.value.0)
  {
    hide Chat, GreedyTurn, StartRecent.EvictForSpaceSeq;
    var room := MakeRoomFor(c, past, |inputIds| + maxGenLen);
    assert room == RoomBefore(c, maxGenLen, turns, |inputIds|);
    var step := GreedyGenerate(model, eos, inputIds, room, maxGenLen);
    if step.Raised? {
      return Raised(step.failure);
    }
    var t := Turn(inputIds, step.value.1);
    OneMoreTurn(c, model, eos, maxGenLen, turns, t);
    return Success((step.value.0, t));
  }

  lemma OneMoreTurn(c: Option<StartRecent>, model: Model, eos: Token, maxGenLen: nat, turns: seq<Turn>, t: Turn)
    requires Chat(c, model, eos, maxGenLen, turns)
    requires GreedyTurn(model, eos, maxGenLen, RoomBefore(c, maxGenLen, turns, |t.prompt|), t)
    ensures Chat(c, model, eos, maxGenLen, turns + [t])
    ensures ChatCache(c, maxGenLen, turns + [t]) == RoomBefore(c, maxGenLen, turns, |t.prompt|) + t.Fed()
    ensures Prompts(turns + [t]) == Prompts(turns) + [t.prompt]
  {
    assert (turns + [t])[..|turns|] == turns;
  }

  /** The cache is the whole history, or its first s tokens and then the last of it without a gap. */
  ghost predicate SinkAndRecent(h: seq<Token>, cache: seq<Token>, s: nat) {
    cache == h || exists k :: s <= k <= |h| && cache == h[..s] + h[k..]
  }

  lemma EndsOfKept(h: seq<Token>, cache: seq<Token>, s: nat, k: nat, room: nat)
    requires s <= k <= |h| && cache == h[..s] + h[k..] && room < |cache| - s
    ensures cache[..s] == h[..s] && cache[|cache| - room..] == h[|h| - room..]
  {
  }

  lemma MakeRoomKeepsShape(kv: StartRecent, h: seq<Token>, cache: seq<Token>, n: nat)
    requires SinkAndRecent(h, cache, kv.startSize)
    ensures SinkAndRecent(h, kv.EvictForSpaceSeq(cache, n), kv.startSize)
  {
    var s := kv.startSize;
    EvictForSpaceSeqKeepsEnds(kv, cache, n);
    var r := kv.EvictForSpaceSeq(cache, n);
    hide StartRecent.EvictForSpaceSeq;
    if r != cache {
      var room: nat := if n <= kv.recentSize then kv.recentSize - n else 0;
      if cache == h {
        assert r == h[..s] + h[|h| - room..];
      } else {
        var k :| s <= k <= |h| && cache == h[..s] + h[k..];
        EndsOfKept(h, cache, s, k, room);
      }
    }
  }

  lemma FeedKeepsShape(h: seq<Token>, cache: seq<Token>, s: nat, fed: seq<Token>)
    requires SinkAndRecent(h, cache, s)
    ensures SinkAndRecent(h + fed, cache + fed, s)
  {
    if cache != h {
      var k :| s <= k <= |h| && cache == h[..s] + h[k..];
      assert (h + fed)[..s] == h[..s] && (h + fed)[k..] == h[k..] + fed;
      assert cache + fed == (h + fed)[..s] + (h + fed)[k..];
    }
  }

  /** After any number of prompts, of any length, with any early stops. */
  lemma {:induction false} ChatCacheShape(kv: StartRecent, maxGenLen: nat, turns: seq<Turn>)
    ensures SinkAndRecent(History(turns), ChatCache(Some(kv), maxGenLen, turns), kv.startSize)
  {
    if turns != [] {
      var before, t := turns[..|turns| - 1], turns[|turns| - 1];
      var n := |t.prompt| + maxGenLen;
      var cache := ChatCache(Some(kv), maxGenLen, before);
      ChatCacheShape(kv, maxGenLen, before);
      MakeRoomKeepsShape(kv, History(before), cache, n);
      FeedKeepsShape(History(before), kv.EvictForSpaceSeq(cache, n), kv.startSize, t.Fed());
    }
  }

  /** Without a cache policy nothing is ever dropped. */
  lemma {:induction false} UnboundedChat(maxGenLen: nat, turns: seq<Turn>)
    ensures ChatCache(None, maxGenLen, turns) == History(turns)
  {
    if turns != [] { UnboundedChat(maxGenLen, turns[..|turns| - 1]); }
  }

  /** Exactly when a turn that makes room for the prompt and maxGenLen tokens stays within the cache
      size even if generation runs to maxGenLen; the cache only grows while generating, and the
      last token is not fed. */
  lemma TurnWithinCacheSize(kv: StartRecent, cache: seq<Token>, promptLen: nat, maxGenLen: nat)
    requires maxGenLen >= 1
    ensures var space := promptLen + maxGenLen;
      |kv.EvictForSpaceSeq(cache, space)| + space - 1 <= kv.CacheSize() <==>
      space <= kv.recentSize + 1 || |cache| + space <= kv.CacheSize() + 1
  {
    EvictForSpaceSeqKeepsEnds(kv, cache, promptLen + maxGenLen);
  }

  /** The bound over a whole chat, of any number of turns: if every prompt with maxGenLen fits the
      recent part (or misses it by one), the cache is never larger than the cache size. */
  lemma ChatWithinCacheSize(kv: StartRecent, maxGenLen: nat, turns: seq<Turn>)
    requires forall t <- turns :: |t.prompt| + maxGenLen <= kv.recentSize + 1 && 1 <= |t.generated| <= maxGenLen
    ensures |ChatCache(Some(kv), maxGenLen, turns)| <= kv.CacheSize()
  {
    hide StartRecent.EvictForSpaceSeq;
    if turns != [] {
      var before, t := ChatCache(Some(kv), maxGenLen, turns[..|turns| - 1]), turns[|turns| - 1];
      assert t in turns;
      assert ChatCache(Some(kv), maxGenLen, turns) == kv.EvictForSpaceSeq(before, |t.prompt| + maxGenLen) + t.Fed();
      TurnWithinCacheSize(kv, before, |t.prompt|, maxGenLen);
    }
  }

  /** What the chat does to the cache: room for a prompt, the prompt, and the fed tokens one at a time. */
  function ChatOps(maxGenLen: nat, turns: seq<Turn>): seq<Op> {
    if turns == [] then []
    else
      var t := turns[|turns| - 1];
      ChatOps(maxGenLen, turns[..|turns| - 1]) + [MakeRoom(|t.prompt| + maxGenLen)] + [Forward(|t.prompt|)]
      + Singly(|t.Fed()| - |t.prompt|)
  }

  function Singly(n: nat): seq<Op> { if n == 0 then [] else Singly(n - 1) + [Forward(1)] }

  lemma {:induction false} MirrorSingly(kv: StartRecent, ops: seq<Op>, h: seq<Token>, cache: seq<Token>, b: seq<Token>)
    requires Mirrors(kv, ops, h, cache)
    ensures Mirrors(kv, ops + Singly(|b|), h + b, cache + b)
  {
    hide Mirrors;
    if b == [] {
      assert ops + Singly(0) == ops && h + b == h && cache + b == cache;
    } else {
      var n := |b| - 1;
      MirrorSingly(kv, ops, h, cache, b[..n]);
      MirrorForward(kv, ops + Singly(n), h + b[..n], cache + b[..n], [b[n]]);
      assert b == b[..n] + [b[n]];
      assert ops + Singly(n) + [Forward(1)] == ops + Singly(|b|);
      assert h + b[..n] + [b[n]] == h + b && cache + b[..n] + [b[n]] == cache + b;
    }
  }

  /** The chat's cache is what the positions of the same run hold. */
  lemma {:induction false} ChatMirrored(kv: StartRecent, maxGenLen: nat, turns: seq<Turn>)
    ensures Mirrors(kv, ChatOps(maxGenLen, turns), History(turns), ChatCache(Some(kv), maxGenLen, turns))
  {
    if turns == [] {
      return;
    }
    hide Mirrors, ChatOps, ChatCache, History, Turn.Fed;
    var before, t := turns[..|turns| - 1], turns[|turns| - 1];
    var ops, h := ChatOps(maxGenLen, before), History(before);
    var n, rest := |t.prompt| + maxGenLen, t.Fed()[|t.prompt|..];
    var room := RoomBefore(Some(kv), maxGenLen, before, |t.prompt|);
    LastTurn(kv, maxGenLen, turns);
    ChatMirrored(kv, maxGenLen, before);
    MirrorMakeRoom(kv, ops, h, ChatCache(Some(kv), maxGenLen, before), n);
    MirrorForward(kv, ops + [MakeRoom(n)], h, room, t.prompt);
    MirrorSingly(kv, ops + [MakeRoom(n)] + [Forward(|t.prompt|)], h + t.prompt, room + t.prompt, rest);
  }

  /** The last turn, taken apart. */
  lemma LastTurn(kv: StartRecent, maxGenLen: nat, turns: seq<Turn>)
    requires turns != []
    ensures var before, t := turns[..|turns| - 1], turns[|turns| - 1];
      var room := RoomBefore(Some(kv), maxGenLen, before, |t.prompt|);
      && t.prompt <= t.Fed()
      && var rest := t.Fed()[|t.prompt|..];
      && ChatOps(maxGenLen, turns) ==
        ChatOps(maxGenLen, before) + [MakeRoom(|t.prompt| + maxGenLen)] + [Forward(|t.prompt|)] + Singly(|rest|)
      && History(turns) == History(before) + t.prompt + rest
      && ChatCache(Some(kv), maxGenLen, turns) == room + t.prompt + rest
      && room == kv.EvictForSpaceSeq(ChatCache(Some(kv), maxGenLen, before), |t.prompt| + maxGenLen)
  {
    var before, t := turns[..|turns| - 1], turns[|turns| - 1];
    var room, rest := RoomBefore(Some(kv), maxGenLen, before, |t.prompt|), t.Fed()[|t.prompt|..];
    assert t.Fed() == t.prompt + rest;
    assert room + t.Fed() == room + t.prompt + rest && History(before) + t.Fed() == History(before) + t.prompt + rest;
  }

  // ----- perplexity (eval_long_ppl.py)

  /** A scored token: what the model attended to, and the token it should have predicted. */
  datatype Loss = Loss(context: seq<Token>, target: Token)

  /** The pairs of input token and target of the texts: every token but the last of each text is an input. */
  function TextPairs(text: seq<Token>): seq<(Token, Token)> {
    if |text| <= 1 then [] else TextPairs(text[..|text| - 1]) + [(text[|text| - 2], text[|text| - 1])]
  }

  function AllPairs(texts: seq<seq<Token>>): seq<(Token, Token)> {
    if texts == [] then [] else AllPairs(texts[..|texts| - 1]) + TextPairs(texts[|texts| - 1])
  }

  function Inputs(pairs: seq<(Token, Token)>): seq<Token> {
    if pairs == [] then [] else Inputs(pairs[..|pairs| - 1]) + [pairs[|pairs| - 1].0]
  }

  function Evicted(c: Option<StartRecent>, tokens: seq<Token>): seq<Token> {
    match c case None => tokens case Some(kv) => kv.CallSeq(tokens)
  }

  /** The one-shot definition: every token is scored against the cache policy applied once to the
      whole history before it, across text boundaries, and the token itself. */
  function Scores(c: Option<StartRecent>, pairs: seq<(Token, Token)>): seq<Loss> {
    if pairs == [] then [] else
    var earlier, last := pairs[..|pairs| - 1], pairs[|pairs| - 1];
    Scores(c, earlier) + [Loss(Evicted(c, Inputs(earlier)) + [last.0], last.1)]
  }

  /** What a loss is, in terms of the pairs: the target of its pair, scored after the inputs up to its own.
      Without a policy, or while they fit, those are all inputs so far; above the cache size they are the first
      startSize, the last recentSize before the token, and the token itself. */
  lemma ScoreAt(c: Option<StartRecent>, pairs: seq<(Token, Token)>, i: nat)
    requires i < |pairs|
    ensures |Scores(c, pairs)| == |pairs| && Scores(c, pairs)[i].target == pairs[i].1
    ensures c.None? || i <= c.value.startSize + c.value.recentSize ==>
      && |Scores(c, pairs)[i].context| == i + 1
      && forall j :: 0 <= j <= i ==> Scores(c, pairs)[i].context[j] == pairs[j].0
    ensures c.Some? && i > c.value.startSize + c.value.recentSize ==>
      var s, n := c.value.startSize, c.value.startSize + c.value.recentSize;
      && |Scores(c, pairs)[i].context| == n + 1
      && (forall j :: 0 <= j < s ==> Scores(c, pairs)[i].context[j] == pairs[j].0)
      && (forall j :: s <= j < n ==> Scores(c, pairs)[i].context[j] == pairs[i - n + j].0)
      && Scores(c, pairs)[i].context[n] == pairs[i].0
  {
    hide Scores, Inputs, Evicted, StartRecent.CallSeq;
    ScoresPrefix(c, pairs, i);
    if c.None? || i <= c.value.startSize + c.value.recentSize {
      FullContext(c, pairs, i, Scores(c, pairs)[i].context);
    } else {
      CutContext(c.value, pairs, i, Scores(c, pairs)[i].context);
    }
  }

  lemma FullContext(c: Option<StartRecent>, pairs: seq<(Token, Token)>, i: nat, context: seq<Token>)
    requires i < |pairs| && context == Evicted(c, Inputs(pairs[..i])) + [pairs[i].0]
    requires c.None? || i <= c.value.startSize + c.value.recentSize
    ensures |context| == i + 1 && forall j :: 0 <= j <= i ==> context[j] == pairs[j].0
  {
    var past := InputsAre(pairs[..i]);
    hide Inputs, StartRecent.CallSeq;
    if c.Some? { CallSeqKeepsEnds(c.value, past); }
    assert context == past + [pairs[i].0];
  }

  lemma CutContext(kv: StartRecent, pairs: seq<(Token, Token)>, i: nat, context: seq<Token>)
    requires i < |pairs| && context == Evicted(Some(kv), Inputs(pairs[..i])) + [pairs[i].0]
    requires i > kv.startSize + kv.recentSize
    ensures EndsOfPairs(pairs, i, kv.startSize, kv.startSize + kv.recentSize, context)
  {
    hide *;
    var past := InputsBefore(pairs, i);
    CutHistory(kv, past, pairs[i].0);
    EndsWithToken(pairs, past, i, kv.startSize, kv.startSize + kv.recentSize);
  }

  lemma InputsBefore(pairs: seq<(Token, Token)>, i: nat) returns (past: seq<Token>)
    requires i <= |pairs|
    ensures past == Inputs(pairs[..i]) && |past| == i && forall j :: 0 <= j < i ==> past[j] == pairs[j].0
  {
    past := InputsAre(pairs[..i]);
  }

  lemma CutHistory(kv: StartRecent, past: seq<Token>, token: Token)
    requires |past| > kv.startSize + kv.recentSize
    ensures var s, n := kv.startSize, kv.startSize + kv.recentSize;
      Evicted(Some(kv), past) + [token] == past[..s] + past[|past| - (n - s)..] + [token]
  {
    hide StartRecent.CallSeq;
    CallSeqKeepsEnds(kv, past);
  }

  /** The first s inputs, the last n - s inputs before input i, and input i. */
  ghost predicate EndsOfPairs(pairs: seq<(Token, Token)>, i: nat, s: nat, n: nat, context: seq<Token>)
    requires s <= n <= i < |pairs|
  {
    && |context| == n + 1
    && (forall j :: 0 <= j < s ==> context[j] == pairs[j].0)
    && (forall j :: s <= j < n ==> context[j] == pairs[i - n + j].0)
    && context[n] == pairs[i].0
  }

  lemma EndsWithToken(pairs: seq<(Token, Token)>, past: seq<Token>, i: nat, s: nat, n: nat)
    requires s <= n < i == |past| < |pairs| && forall j :: 0 <= j < |past| ==> past[j] == pairs[j].0
    ensures EndsOfPairs(pairs, i, s, n, past[..s] + past[|past| - (n - s)..] + [pairs[i].0])
  {
  }

  lemma {:induction false} ScoresPrefix(c: Option<StartRecent>, pairs: seq<(Token, Token)>, i: nat)
    requires i < |pairs|
    ensures |Scores(c, pairs)| == |pairs|
    ensures Scores(c, pairs)[i] == Loss(Evicted(c, Inputs(pairs[..i])) + [pairs[i].0], pairs[i].1)
  {
    hide Evicted, Inputs;
    var n := |pairs| - 1;
    ScoresLength(c, pairs);
    if i < n {
      ScoresPrefix(c, pairs[..n], i);
      assert pairs[..n][..i] == pairs[..i];
    }
  }

  lemma {:induction false} ScoresLength(c: Option<StartRecent>, pairs: seq<(Token, Token)>)
    ensures |Scores(c, pairs)| == |pairs|
  {
    if pairs != [] { ScoresLength(c, pairs[..|pairs| - 1]); }
  }

  lemma {:induction false} InputsAre(pairs: seq<(Token, Token)>) returns (inputs: seq<Token>)
    ensures inputs == Inputs(pairs)
    ensures |Inputs(pairs)| == |pairs| && forall j :: 0 <= j < |pairs| ==> Inputs(pairs)[j] == pairs[j].0
  {
    inputs := Inputs(pairs);
    if pairs != [] { var _ := InputsAre(pairs[..|pairs| - 1]); }
  }

  /** The pairs of all texts: those of each text follow those of the texts before it, token and next token. */
  lemma PairAt(texts: seq<seq<Token>>, t: nat, i: nat)
    requires t < |texts|
    ensures AllPairs(texts[..0]) == []
    ensures |AllPairs(texts[..t + 1])| == |AllPairs(texts[..t])| + if texts[t] == [] then 0 else |texts[t]| - 1
    ensures i + 1 < |texts[t]| ==>
      && |AllPairs(texts[..t])| + i < |AllPairs(texts)|
      && AllPairs(texts)[|AllPairs(texts[..t])| + i] == (texts[t][i], texts[t][i + 1])
  {
    TextLength(texts[t]);
    assert texts[..t + 1][..t] == texts[..t];
    if i + 1 < |texts[t]| {
      PrefixOfAll(texts, t);
      TextPairAt(texts[t], i);
      assert AllPairs(texts)[|AllPairs(texts[..t])| + i]
        == (AllPairs(texts[..t]) + TextPairs(texts[t]))[|AllPairs(texts[..t])| + i];
    }
  }

  /** How many tokens are scored under a limit: a limit below one still lets one token of the first text through. */
  function Limit(texts: seq<seq<Token>>, numEvalTokens: Option<int>): nat {
    var total := |AllPairs(texts)|;
    if numEvalTokens.None? then total
    else if numEvalTokens.value >= 1 then (if numEvalTokens.value < total then numEvalTokens.value else total)
    else if texts != [] && |texts[0]| >= 2 then 1 else 0
  }

  lemma LimitIs(texts: seq<seq<Token>>, numEvalTokens: Option<int>)
    ensures numEvalTokens.None? ==> Limit(texts, numEvalTokens) == |AllPairs(texts)|
    ensures numEvalTokens.Some? && numEvalTokens.value >= 1 ==>
      Limit(texts, numEvalTokens) == Min(numEvalTokens.value, |AllPairs(texts)|)
    ensures numEvalTokens.Some? && numEvalTokens.value < 1 ==>
      Limit(texts, numEvalTokens) == if texts != [] && |texts[0]| >= 2 then 1 else 0
  {
  }

  function Min(a: int, b: int): int { if a < b then a else b }

  predicate Reached(numEvalTokens: Option<int>, n: nat) {
    numEvalTokens.Some? && n >= numEvalTokens.value
  }

  /** Evaluating and evicting token by token scores every token as the one-shot definition does. */
  method EvalLongPpl(texts: seq<seq<Token>>, c: Option<StartRecent>, numEvalTokens: Option<int>)
    returns (losses: seq<Loss>)
    ensures Limit(texts, numEvalTokens) <= |AllPairs(texts)|
    ensures losses == Scores(c, AllPairs(texts)[..Limit(texts, numEvalTokens)])
    ensures |losses| <= |AllPairs(texts)| && (numEvalTokens.None? ==> |losses| == |AllPairs(texts)|)
    ensures numEvalTokens.Some? && numEvalTokens.value >= 1 ==>
      |losses| == numEvalTokens.value || (|losses| == |AllPairs(texts)| < numEvalTokens.value)
    ensures numEvalTokens.Some? && numEvalTokens.value < 1 ==>
      |losses| == if texts != [] && |texts[0]| >= 2 then 1 else 0
    ensures forall i :: 0 <= i < |losses| ==> losses[i].target == AllPairs(texts)[i].1
    ensures c.None? ==> forall i :: 0 <= i < |losses| ==>
      |losses[i].context| == i + 1 && forall j :: 0 <= j <= i ==> losses[i].context[j] == AllPairs(texts)[j].0
  {
    LimitInRange(texts, numEvalTokens);
    LimitIs(texts, numEvalTokens);
    losses := [];
    var past: seq<Token> := [];
    var numEvaluated, stop := 0, false;
    assert Streamed(c, AllPairs(texts[..0]), past, losses, numEvaluated);
    hide Streamed, Scores, Limit, AllPairs;
    for t := 0 to |texts|
      invariant Streamed(c, AllPairs(texts[..t]), past, losses, numEvaluated)
      invariant Reached(numEvalTokens, numEvaluated) ==> t == 0
    {
      past, losses, numEvaluated, stop := EvalNext(texts, t, c, numEvalTokens, past, losses, numEvaluated);
      if stop {
        Evaluated(texts, c, numEvalTokens, losses);
        return;
      }
    }
    StreamedMeans(c, AllPairs(texts[..|texts|]), past, losses, numEvaluated);
    assert texts[..|texts|] == texts;
    NotStopped(texts, numEvalTokens);
    assert AllPairs(texts)[..|AllPairs(texts)|] == AllPairs(texts);
    Evaluated(texts, c, numEvalTokens, losses);
  }

  /** What the scores up to the limit are. */
  lemma Evaluated(texts: seq<seq<Token>>, c: Option<StartRecent>, numEvalTokens: Option<int>, losses: seq<Loss>)
    requires Limit(texts, numEvalTokens) <= |AllPairs(texts)|
    requires losses == Scores(c, AllPairs(texts)[..Limit(texts, numEvalTokens)])
    ensures |losses| == Limit(texts, numEvalTokens)
    ensures forall i :: 0 <= i < |losses| ==> losses[i].target == AllPairs(texts)[i].1
    ensures c.None? ==> forall i :: 0 <= i < |losses| ==>
      |losses[i].context| == i + 1 && forall j :: 0 <= j <= i ==> losses[i].context[j] == AllPairs(texts)[j].0
  {
    var pairs := AllPairs(texts)[..Limit(texts, numEvalTokens)];
    hide Scores, Limit, AllPairs;
    ScoresLength(c, pairs);
    forall i | 0 <= i < |losses|
      ensures losses[i].target == pairs[i].1
      ensures c.None? ==> |losses[i].context| == i + 1 && forall j :: 0 <= j <= i ==> losses[i].context[j] == pairs[j].0
    {
      ScoreAt(c, pairs, i);
    }
  }

  /** The body of the loop over the texts; stop tells that the limit is reached. */
  method EvalNext(texts: seq<seq<Token>>, t: nat, c: Option<StartRecent>, numEvalTokens: Option<int>, past: seq<Token>,
                  losses: seq<Loss>, numEvaluated: nat)
    returns (past': seq<Token>, losses': seq<Loss>, numEvaluated': nat, stop: bool)
    requires t < |texts| && Streamed(c, AllPairs(texts[..t]), past, losses, numEvaluated)
    requires Reached(numEvalTokens, numEvaluated) ==> t == 0
    ensures !stop ==> Streamed(c, AllPairs(texts[..t + 1]), past', losses', numEvaluated')
    ensures !stop ==> !Reached(numEvalTokens, numEvaluated')
    ensures Limit(texts, numEvalTokens) <= |AllPairs(texts)|
    ensures stop ==> losses' == Scores(c, AllPairs(texts)[..Limit(texts, numEvalTokens)])
  {
    hide Streamed, Scores, Limit;
    LimitInRange(texts, numEvalTokens);
    ghost var n: nat, before := 0, AllPairs(texts[..t]);
    StreamedMeans(c, before, past, losses, numEvaluated);
    past', losses', numEvaluated', stop, n := EvalText(texts[t], c, numEvalTokens, past, losses, numEvaluated, before);
    StreamedMeans(c, before + TextPairs(texts[t])[..n], past', losses', numEvaluated');
    if stop {
      Stopped(texts, numEvalTokens, t, n, before);
    } else {
      assert TextPairs(texts[t])[..n] == TextPairs(texts[t]);
      assert texts[..t + 1][..t] == texts[..t];
    }
  }

  lemma NotStopped(texts: seq<seq<Token>>, numEvalTokens: Option<int>)
    requires Reached(numEvalTokens, |AllPairs(texts)|) ==> texts == []
    ensures Limit(texts, numEvalTokens) == |AllPairs(texts)|
  {
  }

  lemma StreamedMeans(c: Option<StartRecent>, done: seq<(Token, Token)>, past: seq<Token>, losses: seq<Loss>, n: nat)
    requires Streamed(c, done, past, losses, n)
    ensures losses == Scores(c, done) && n == |done|
  {
  }

  /** The loop over one text; n tells how many of its pairs were scored, stop that the limit is reached. */
  method EvalText(text: seq<Token>, c: Option<StartRecent>, numEvalTokens: Option<int>, past: seq<Token>,
                  losses: seq<Loss>, numEvaluated: nat, ghost done: seq<(Token, Token)>)
    returns (past': seq<Token>, losses': seq<Loss>, numEvaluated': nat, stop: bool, ghost n: nat)
    requires Streamed(c, done, past, losses, numEvaluated)
    ensures n <= |TextPairs(text)|
    ensures Streamed(c, done + TextPairs(text)[..n], past', losses', numEvaluated')
    ensures stop <==> Reached(numEvalTokens, numEvaluated')
    ensures !stop ==> n == |TextPairs(text)|
    ensures stop && n > 1 ==> !Reached(numEvalTokens, numEvaluated' - 1)
    ensures stop && n == 0 ==> TextPairs(text) == []
  {
    past', losses', numEvaluated', n := past, losses, numEvaluated, 0;
    TextLength(text);
    ghost var now := done;
    for idx := 0 to if |text| == 0 then 0 else |text| - 1
      invariant n == idx && now == done + TextPairs(text)[..n]
      invariant Streamed(c, now, past', losses', numEvaluated')
      invariant idx > 0 ==> !Reached(numEvalTokens, numEvaluated')
    {
      var token, target := text[idx], text[idx + 1];
      NextPair(text, idx);
      past', losses' := ScoreToken(c, token, target, past', losses', now);
      n, now := n + 1, now + [(token, target)];
      assert now == done + TextPairs(text)[..n];
      numEvaluated' := numEvaluated' + 1;
      if numEvalTokens.Some? && numEvaluated' >= numEvalTokens.value {
        break;
      }
    }
    assert Streamed(c, now, past', losses', numEvaluated');
    stop := numEvalTokens.Some? && numEvaluated' >= numEvalTokens.value;
  }

  /** One model step, one loss, one eviction. */
  method ScoreToken(c: Option<StartRecent>, token: Token, target: Token, past: seq<Token>, losses: seq<Loss>,
                    ghost done: seq<(Token, Token)>)
    returns (past': seq<Token>, losses': seq<Loss>)
    requires Streamed(c, done, past, losses, |done|)
    ensures Streamed(c, done + [(token, target)], past', losses', |done| + 1)
  {
    OneMoreToken(c, done, token, target);
    losses' := losses + [Loss(past + [token], target)];
    past' := Evicted(c, past + [token]);
  }

  lemma NextPair(text: seq<Token>, i: nat)
    requires i + 1 < |text|
    ensures i < |TextPairs(text)|
    ensures TextPairs(text)[..i + 1] == TextPairs(text)[..i] + [(text[i], text[i + 1])]
  {
    TextPairAt(text, i);
  }

  /** The loop state after the pairs done. */
  ghost predicate Streamed(c: Option<StartRecent>, done: seq<(Token, Token)>, past: seq<Token>, losses: seq<Loss>,
                           n: nat)
  {
    past == Evicted(c, Inputs(done)) && losses == Scores(c, done) && n == |done|
  }

  lemma OneMoreToken(c: Option<StartRecent>, done: seq<(Token, Token)>, token: Token, target: Token)
    ensures var past, more := Evicted(c, Inputs(done)), done + [(token, target)];
      && Evicted(c, Inputs(more)) == Evicted(c, past + [token])
      && Scores(c, more) == Scores(c, done) + [Loss(past + [token], target)]
  {
    assert (done + [(token, target)])[..|done|] == done;
    if c.Some? { StreamingEqualsOneShot(c.value, Inputs(done), [token]); }
  }

  lemma Stopped(texts: seq<seq<Token>>, numEvalTokens: Option<int>, t: nat, n: nat, before: seq<(Token, Token)>)
    requires t < |texts| && n <= |TextPairs(texts[t])| && before == AllPairs(texts[..t])
    requires var r := |before| + n;
      && Reached(numEvalTokens, r) && (Reached(numEvalTokens, |before|) ==> t == 0)
      && (n > 1 ==> !Reached(numEvalTokens, r - 1)) && (n == 0 ==> TextPairs(texts[t]) == [])
    ensures var done := before + TextPairs(texts[t])[..n];
      && |done| == Limit(texts, numEvalTokens) <= |AllPairs(texts)|
      && done == AllPairs(texts)[..|done|]
  {
    TextLength(texts[t]);
    PrefixOfAll(texts, t);
    if t == 0 { assert texts[..0] == [] && before == []; }
  }

  lemma {:induction false} TextLength(text: seq<Token>)
    ensures |TextPairs(text)| == if |text| == 0 then 0 else |text| - 1
  {
    if |text| > 1 { TextLength(text[..|text| - 1]); }
  }

  lemma {:induction false} TextPairAt(text: seq<Token>, i: nat)
    requires i + 1 < |text|
    ensures i < |TextPairs(text)| && TextPairs(text)[i] == (text[i], text[i + 1])
  {
    TextLength(text[..|text| - 1]);
    if i + 2 < |text| { TextPairAt(text[..|text| - 1], i); }
  }

  lemma LimitInRange(texts: seq<seq<Token>>, numEvalTokens: Option<int>)
    ensures Limit(texts, numEvalTokens) <= |AllPairs(texts)|
  {
    if texts != [] && |texts[0]| >= 2 {
      PrefixOfAll(texts, 0);
      TextLength(texts[0]);
    }
  }

  lemma {:induction false} PrefixOfAll(texts: seq<seq<Token>>, t: nat)
    requires t < |texts|
    ensures AllPairs(texts[..t]) + TextPairs(texts[t]) <= AllPairs(texts)
  {
    if t < |texts| - 1 {
      PrefixOfAll(texts[..|texts| - 1], t);
      assert texts[..|texts| - 1][..t] == texts[..t];
    }
  }

  /** What the evaluation does to the cache: a token, an eviction, a token, an eviction. */
  function EvaluationOps(n: nat): seq<Op> {
    if n == 0 then [] else EvaluationOps(n - 1) + [Forward(1)] + [Evict]
  }

  /** The evaluation's cache is what the positions of the same run hold. */
  lemma {:induction false} EvaluationMirrored(kv: StartRecent, tokens: seq<Token>)
    ensures Mirrors(kv, EvaluationOps(|tokens|), tokens, Evicted(Some(kv), tokens))
  {
    if tokens != [] {
      hide Mirrors, StartRecent.CallSeq;
      var n, before := |tokens| - 1, tokens[..|tokens| - 1];
      assert tokens == before + [tokens[n]];
      EvaluationMirrored(kv, before);
      MirrorForward(kv, EvaluationOps(n), before, kv.CallSeq(before), [tokens[n]]);
      MirrorEvict(kv, EvaluationOps(n) + [Forward(1)], tokens, kv.CallSeq(before) + [tokens[n]]);
      StreamingEqualsOneShot(kv, before, [tokens[n]]);
    }
  }
}
