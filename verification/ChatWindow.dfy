/** The chat client that sends only the system prompt and the most recent messages. */
module ChatWindow {

  datatype Option<T> = None | Some(value: T)

  datatype Role = System | User | Assistant

  datatype Message = Message(role: Role, content: string)

  /** What the server does with one request: it streams chunks, some without content, or an exception ends it. */
  datatype Reply = Streamed(chunks: seq<Option<string>>) | Failed

  // ----- what the conversation is

  function Text(chunks: seq<Option<string>>): string {
    if chunks == [] then ""
    else
      var last := chunks[|chunks| - 1];
      Text(chunks[..|chunks| - 1]) + (if last.Some? then last.value else "")
  }

  /** An answer is the contents of its chunks, in order; a chunk without content adds nothing. */
  lemma {:induction false} TextAdds(a: seq<Option<string>>, b: seq<Option<string>>, content: string)
    ensures Text(a + b) == Text(a) + Text(b)
    ensures Text([Some(content)]) == content && Text([None]) == "" && Text([]) == ""
  {
    TextOfOne(content);
    if b == [] {
      assert a + b == a;
    } else {
      var init, last := b[..|b| - 1], b[|b| - 1];
      TextAdds(a, init, content);
      TextSnoc(init, last);
      TextSnoc(a + init, last);
      hide Text;
      assert b == init + [last] && a + b == a + init + [last];
      var x := if last.Some? then last.value else "";
      assert Text(a) + (Text(init) + x) == Text(a) + Text(init) + x;
    }
  }

  lemma TextOfOne(content: string)
    ensures Text([]) == "" && Text([Some(content)]) == content && Text([None]) == ""
  {
    var none: seq<Option<string>> := [];
    TextSnoc(none, Some(content));
    TextSnoc(none, None);
    assert none + [Some(content)] == [Some(content)] && none + [None] == [None];
  }

  lemma TextSnoc(chunks: seq<Option<string>>, last: Option<string>)
    ensures Text(chunks + [last]) == Text(chunks) + if last.Some? then last.value else ""
  {
    assert (chunks + [last])[..|chunks|] == chunks;
  }

  /** The answers up to the first failure. */
  function Answers(replies: seq<Reply>): (r: seq<string>)
    ensures |r| <= |replies|
    ensures |r| < |replies| ==> replies[|r|].Failed?
  {
    if replies == [] || replies[0].Failed? then [] else [Text(replies[0].chunks)] + Answers(replies[1..])
  }

  /** The full history: the first prompt, then an answer and the next prompt for every completed turn. */
  function History(initialPrompt: string, nextPrompt: nat -> string, answers: seq<string>): (h: seq<Message>)
    ensures |h| == 2 * |answers| + 1 && Odd(|h|)
    decreases |answers|
  {
    if answers == [] then [Message(User, initialPrompt)]
    else
      var i := |answers| - 1;
      History(initialPrompt, nextPrompt, answers[..i])
      + [Message(Assistant, answers[i]), Message(User, nextPrompt(i + 2))]
  }

  /** Message by message. */
  lemma {:induction false} HistoryMessage(initialPrompt: string, nextPrompt: nat -> string, answers: seq<string>,
                                          i: nat)
    requires i < |answers|
    ensures var h := History(initialPrompt, nextPrompt, answers);
      && h[0] == Message(User, initialPrompt)
      && h[2 * i + 1] == Message(Assistant, answers[i]) && h[2 * i + 2] == Message(User, nextPrompt(i + 2))
    decreases |answers|
  {
    var n := |answers| - 1;
    if i < n {
      HistoryMessage(initialPrompt, nextPrompt, answers[..n], i);
    } else if n > 0 {
      HistoryMessage(initialPrompt, nextPrompt, answers[..n], 0);
    }
  }

  lemma {:induction false} OddMeans(n: nat)
    ensures Odd(n) <==> n % 2 == 1
  {
    if n > 0 { OddMeans(n - 1); }
  }

  predicate Odd(n: nat) { n != 0 && !Odd(n - 1) }

  lemma {:induction false} OddSum(a: nat, b: nat)
    ensures Odd(a + b) <==> Odd(a) != Odd(b)
  {
    if a > 0 { OddSum(a - 1, b); }
  }

  /** User and assistant take turns, and the user has the first and the last word. */
  predicate Alternates(h: seq<Message>) {
    && Odd(|h|)
    && forall i {:trigger h[i]} :: 0 <= i < |h| ==> h[i].role == if Odd(i) then Assistant else User
  }

  lemma {:induction false} HistoryAlternates(initialPrompt: string, nextPrompt: nat -> string, answers: seq<string>)
    ensures Alternates(History(initialPrompt, nextPrompt, answers))
    decreases |answers|
  {
    if answers != [] {
      var i := |answers| - 1;
      HistoryAlternates(initialPrompt, nextPrompt, answers[..i]);
    }
  }

  // ----- the window

  ghost predicate IsSuffix(w: seq<Message>, h: seq<Message>) { |w| <= |h| && w == h[|h| - |w|..] }

  /** All n messages while they fit in k, and then the most that fit and are an odd number. */
  function WindowLength(k: nat, n: nat): (r: nat)
    requires k > 0 && Odd(n)
    ensures Odd(r) && r <= n && r <= k && (r == n || r >= k - 1)
    ensures n <= k ==> r == n
  {
    if n <= k then n else if Odd(k) then k else k - 1
  }

  function Window(k: nat, h: seq<Message>): (w: seq<Message>)
    requires k > 0 && Odd(|h|)
    ensures IsSuffix(w, h)
  {
    h[|h| - WindowLength(k, |h|)..]
  }

  lemma RoleInSuffix(h: seq<Message>, d: nat, i: nat)
    requires Alternates(h) && d + i < |h| && !Odd(d)
    ensures h[d + i].role == if Odd(i) then Assistant else User
  {
    OddSum(d, i);
  }

  /** A suffix starts with the user exactly when its length is odd, and then it takes turns too. */
  lemma SuffixAlternates(h: seq<Message>, n: nat)
    requires Alternates(h) && 0 < n <= |h|
    ensures h[|h| - n].role == if Odd(n) then User else Assistant
    ensures Odd(n) <==> Alternates(h[|h| - n..])
  {
    var d := |h| - n;
    OddSum(d, n);
    assert h[d].role == if Odd(d) then Assistant else User;
    if Odd(n) {
      forall i: nat | i < n
        ensures h[d..][i].role == if Odd(i) then Assistant else User
      {
        RoleInSuffix(h, d, i);
      }
    }
  }

  /** The window takes turns, from the user to the user, and no longer suffix of at most k messages has odd
      length. Once the history no longer fits, it holds k messages exactly if k is odd, and else one less. */
  lemma WindowIsLongest(k: nat, h: seq<Message>)
    requires k > 0 && Alternates(h)
    ensures Alternates(Window(k, h)) && |Window(k, h)| <= k
    ensures |h| > k ==> (|Window(k, h)| == k <==> Odd(k)) && (!Odd(k) ==> |Window(k, h)| == k - 1)
    ensures forall w :: IsSuffix(w, h) && Odd(|w|) && |w| <= k ==> |w| <= |Window(k, h)|
  {
    SuffixAlternates(h, WindowLength(k, |h|));
  }

  /** Cutting the context: the system prompt, and of the last k messages all but a leading answer. With k = 0,
      "the last k" is the whole list, as in Python's list[-0:]. */
  function Managed(k: nat, context: seq<Message>): seq<Message>
    requires context != []
  {
    if |context| <= k + 1 then context
    else
      var recent := if k == 0 then context else context[|context| - k..];
      [context[0]] + if recent[0].role == Assistant then recent[1..] else recent
  }

  function Repeat(m: Message, n: nat): (r: seq<Message>)
    ensures |r| == n
  {
    seq(n, i => m)
  }

  /** The request of turn t, when the history is h. */
  function Request(k: nat, system: Message, t: nat, h: seq<Message>): seq<Message>
    requires Odd(|h|)
  {
    if k == 0 then Repeat(system, t + 2) + h else [system] + Window(k, h)
  }

  /** A request, message by message: with k > 0 the system prompt, and then the whole history while it has at most k
      messages, or else its last k, or its last k - 1 when k is even; with k = 0 t + 2 prompts and the history. */
  lemma RequestMeans(k: nat, system: Message, t: nat, h: seq<Message>)
    requires Odd(|h|)
    ensures var r := Request(k, system, t, h);
      var n := if |h| <= k then |h| else if k % 2 == 1 then k else k - 1;
      if k > 0 then r == [system] + h[|h| - n..]
      else |r| == t + 2 + |h| && r[t + 2..] == h && forall i :: 0 <= i < t + 2 ==> r[i] == system
  {
    if k > 0 {
      OddMeans(k);
    } else {
      PromptsFirst(system, t, h);
    }
  }

  lemma PromptsFirst(system: Message, t: nat, h: seq<Message>)
    ensures var r := Repeat(system, t + 2) + h;
      |r| == t + 2 + |h| && r[t + 2..] == h && forall i :: 0 <= i < t + 2 ==> r[i] == system
  {
  }

  /** A request is the system prompt and a suffix of the history exactly when k is not 0. With k = 0 the
      whole history is sent, after a prompt for every turn. */
  lemma RequestIsPromptAndSuffix(k: nat, system: Message, t: nat, h: seq<Message>)
    requires system.role == System && Alternates(h)
    ensures (exists w :: IsSuffix(w, h) && Request(k, system, t, h) == [system] + w) <==> k > 0
  {
    if k > 0 {
      assert Request(k, system, t, h) == [system] + Window(k, h);
    } else {
      var r := Request(k, system, t, h);
      forall w | IsSuffix(w, h)
        ensures r != [system] + w
      {
        assert r[1] == system;
        assert w != [] ==> ([system] + w)[1] == h[|h| - |w|];
      }
    }
  }

  /** The context at the start of turn t. */
  function ContextAt(k: nat, system: Message, t: nat, h: seq<Message>): seq<Message>
    requires |h| == 2 * t + 1 && Odd(|h|)
  {
    if t == 0 then [system] + h else
      assert !Odd(|h| - 1);
      Request(k, system, t - 1, h[..|h| - 2]) + h[|h| - 2..]
  }

  /** For k > 0 the context is the system prompt and a suffix of the history, whole or longer than k. */
  lemma ContextIsSuffix(k: nat, system: Message, t: nat, h: seq<Message>) returns (n: nat)
    requires k > 0 && |h| == 2 * t + 1 && Odd(|h|)
    ensures n <= |h| && (n == |h| || n > k)
    ensures ContextAt(k, system, t, h) == [system] + h[|h| - n..]
  {
    n := |h|;
    if t > 0 {
      var w := Window(k, h[..|h| - 2]);
      n := |w| + 2;
      assert h[|h| - n..] == w + h[|h| - 2..];
      assert ContextAt(k, system, t, h) == [system] + (w + h[|h| - 2..]);
    }
  }

  lemma LastOf(m: Message, h: seq<Message>, n: nat, k: nat)
    requires k <= n <= |h|
    ensures ([m] + h[|h| - n..])[n + 1 - k..] == h[|h| - k..]
  {
  }

  lemma CutIsWindow(k: nat, system: Message, n: nat, h: seq<Message>)
    requires k > 0 && n <= |h| && (n == |h| || n > k) && Odd(|h|)
    requires n > k ==> h[|h| - k].role == if Odd(k) then User else Assistant
    ensures Managed(k, [system] + h[|h| - n..]) == [system] + Window(k, h)
  {
    if n > k {
      LastOf(system, h, n, k);
      assert h[|h| - k..][1..] == h[|h| - (k - 1)..];
    }
  }

  lemma ManagedIsRequest(k: nat, system: Message, t: nat, h: seq<Message>)
    requires system.role == System && |h| == 2 * t + 1 && Alternates(h)
    ensures ContextAt(k, system, t, h) != []
    ensures Managed(k, ContextAt(k, system, t, h)) == Request(k, system, t, h)
  {
    if k == 0 {
      var context := ContextAt(k, system, t, h);
      assert context == Repeat(system, t + 1) + h;
      assert context[0] == system;
      assert [system] + Repeat(system, t + 1) == Repeat(system, t + 2);
      assert Managed(k, context) == [system] + (Repeat(system, t + 1) + h);
    } else {
      var n := ContextIsSuffix(k, system, t, h);
      if n > k { SuffixAlternates(h, k); }
      CutIsWindow(k, system, n, h);
    }
  }

  lemma ContextGrows(k: nat, system: Message, t: nat, h: seq<Message>, turn: seq<Message>)
    requires |turn| == 2 && |h| == 2 * t + 1 && Odd(|h|)
    ensures ContextAt(k, system, t + 1, h + turn) == Request(k, system, t, h) + turn
  {
    assert (h + turn)[..|h|] == h && (h + turn)[|h|..] == turn;
  }

  // ----- the client

  class ChatClient {
    const recentContextSize: nat
    const nextPrompt: nat -> string
    const systemPrompt: Message
    const initialPrompt: string
    var fullConversationHistory: seq<Message>
    var streamingContext: seq<Message>

    /** Both lists start with the first prompt; the working context has the system prompt before it. */
    constructor (recentContextSize: nat, systemContent: string, initialPrompt: string, nextPrompt: nat -> string)
      ensures this.recentContextSize == recentContextSize && this.nextPrompt == nextPrompt
      ensures systemPrompt == Message(System, systemContent) && this.initialPrompt == initialPrompt
      ensures fullConversationHistory == History(initialPrompt, nextPrompt, [])
      ensures streamingContext == [systemPrompt] + fullConversationHistory
    {
      this.recentContextSize, this.nextPrompt := recentContextSize, nextPrompt;
      this.initialPrompt, systemPrompt := initialPrompt, Message(System, systemContent);
      fullConversationHistory := [Message(User, initialPrompt)];
      streamingContext := [Message(System, systemContent)] + [Message(User, initialPrompt)];
    }

    method ManageStreamingContext()
      requires streamingContext != []
      modifies this`streamingContext
      ensures streamingContext == Managed(recentContextSize, old(streamingContext))
    {
      if |streamingContext| > recentContextSize + 1 {
        var system := streamingContext[0];
        var recentMessages := if recentContextSize == 0 then streamingContext
          else streamingContext[|streamingContext| - recentContextSize..];
        if recentMessages != [] && recentMessages[0].role == Assistant {
          recentMessages := recentMessages[1..];
        }
        streamingContext := [system] + recentMessages;
      }
    }

    /** The turn loop, with the requests that it sends. A failure ends it before the histories change. */
    method Converse(replies: seq<Reply>) returns (requests: seq<seq<Message>>)
      requires systemPrompt.role == System
      requires fullConversationHistory == History(initialPrompt, nextPrompt, [])
      requires streamingContext == [systemPrompt] + fullConversationHistory
      modifies this
      ensures fullConversationHistory == History(initialPrompt, nextPrompt, Answers(replies))
      ensures |requests| == if |Answers(replies)| < |replies| then |Answers(replies)| + 1 else |replies|
      ensures forall t :: 0 <= t < |requests| ==>
        requests[t] == Request(recentContextSize, systemPrompt, t,
                               History(initialPrompt, nextPrompt, Answers(replies)[..t]))
    {
      hide History, Answers, Request;
      assert Answers(replies)[..|Answers(replies)|] == Answers(replies);
      requests := [];
      for i := 0 to |replies|
        invariant i <= |Answers(replies)|
        invariant AtTurn(replies, i)
        invariant requests == Requests(replies, i)
      {
        var request, ok := Turn(replies, i);
        requests := requests + [request];
        if !ok {
          return;
        }
      }
    }

    /** The state at the start of turn i. */
    ghost predicate AtTurn(replies: seq<Reply>, i: nat)
      requires i <= |Answers(replies)|
      reads this
    {
      && fullConversationHistory == HistoryAt(replies, i)
      && streamingContext == ContextAt(recentContextSize, systemPrompt, i, HistoryAt(replies, i))
    }

    /** One turn of the loop. */
    method Turn(replies: seq<Reply>, i: nat) returns (request: seq<Message>, ok: bool)
      requires systemPrompt.role == System
      requires i < |replies| && i <= |Answers(replies)| && AtTurn(replies, i)
      modifies this
      ensures request == Request(recentContextSize, systemPrompt, i, HistoryAt(replies, i))
      ensures if ok then i < |Answers(replies)| && AtTurn(replies, i + 1)
              else i == |Answers(replies)| && fullConversationHistory == old(fullConversationHistory)
    {
      ThisTurn(replies, i);
      ManageStreamingContext();
      request := streamingContext;
      ok := replies[i].Streamed?;
      if ok {
        var assistantResponse := Received(replies[i].chunks);
        NextTurn(replies, i);
        RecordTurn(i, assistantResponse);
      }
    }

    lemma ThisTurn(replies: seq<Reply>, i: nat)
      requires systemPrompt.role == System && i < |replies| && i <= |Answers(replies)|
      ensures var h := HistoryAt(replies, i);
        var context := ContextAt(recentContextSize, systemPrompt, i, h);
        context != [] && Managed(recentContextSize, context) == Request(recentContextSize, systemPrompt, i, h)
      ensures replies[i].Failed? ==> i == |Answers(replies)|
    {
      HistoryAlternates(initialPrompt, nextPrompt, Answers(replies)[..i]);
      ManagedIsRequest(recentContextSize, systemPrompt, i, HistoryAt(replies, i));
      AnswerAt(replies, i);
    }

    lemma NextTurn(replies: seq<Reply>, i: nat)
      requires i < |replies| && i <= |Answers(replies)| && replies[i].Streamed?
      ensures i < |Answers(replies)|
      ensures var turn := Exchange(i, Text(replies[i].chunks)); var h := HistoryAt(replies, i);
        && HistoryAt(replies, i + 1) == h + turn
        && ContextAt(recentContextSize, systemPrompt, i + 1, h + turn)
          == Request(recentContextSize, systemPrompt, i, h) + turn
    {
      AnswerAt(replies, i);
      assert Answers(replies)[..i + 1][..i] == Answers(replies)[..i];
      ContextGrows(recentContextSize, systemPrompt, i, HistoryAt(replies, i), Exchange(i, Text(replies[i].chunks)));
    }

    /** What turn i adds: the answer and the next prompt. */
    function Exchange(i: nat, assistantResponse: string): seq<Message> {
      [Message(Assistant, assistantResponse), Message(User, nextPrompt(i + 2))]
    }

    ghost function HistoryAt(replies: seq<Reply>, t: nat): (h: seq<Message>)
      requires t <= |Answers(replies)|
      ensures |h| == 2 * t + 1 && Odd(|h|)
    {
      History(initialPrompt, nextPrompt, Answers(replies)[..t])
    }

    /** The requests of the first n turns. */
    ghost function Requests(replies: seq<Reply>, n: nat): (r: seq<seq<Message>>)
      requires n <= |Answers(replies)| + 1
      ensures |r| == n
      ensures forall t :: 0 <= t < n ==> r[t] == Request(recentContextSize, systemPrompt, t, HistoryAt(replies, t))
    {
      if n == 0 then [] else
        Requests(replies, n - 1) + [Request(recentContextSize, systemPrompt, n - 1, HistoryAt(replies, n - 1))]
    }

    /** The end of turn i, recorded in both lists. */
    method RecordTurn(i: nat, assistantResponse: string)
      modifies this
      ensures streamingContext == old(streamingContext) + Exchange(i, assistantResponse)
      ensures fullConversationHistory == old(fullConversationHistory) + Exchange(i, assistantResponse)
    {
      var assistantMsg, userMsg := Message(Assistant, assistantResponse), Message(User, nextPrompt(i + 2));
      streamingContext := streamingContext + [assistantMsg];
      fullConversationHistory := fullConversationHistory + [assistantMsg];
      streamingContext := streamingContext + [userMsg];
      fullConversationHistory := fullConversationHistory + [userMsg];
    }
  }

  lemma {:induction false} AnswerAt(replies: seq<Reply>, i: nat)
    requires i <= |Answers(replies)| && i < |replies|
    ensures i == |Answers(replies)| <==> replies[i].Failed?
    ensures replies[i].Streamed? ==> Answers(replies)[i] == Text(replies[i].chunks)
  {
    if replies[0].Streamed? && i > 0 { AnswerAt(replies[1..], i - 1); }
  }

  /** The loop that gathers one answer from its chunks. */
  method Received(chunks: seq<Option<string>>) returns (response: string)
    ensures response == Text(chunks)
  {
    response := "";
    for j := 0 to |chunks|
      invariant response == Text(chunks[..j])
    {
      var content := chunks[j];
      assert chunks[..j + 1][..j] == chunks[..j];
      if content.Some? {
        response := response + content.value;
      }
    }
    assert chunks[..|chunks|] == chunks;
  }
}
