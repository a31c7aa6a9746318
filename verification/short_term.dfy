/**
 * The short-term conversation memory of the TechAssist agent: a sliding
 * window over the most recent chat messages, with a recent-messages query and
 * a rendering of the last five messages as prompt context.
 */
module ShortTerm {
  import Text

  /** The message classes the memory stores; only human messages are rendered as the user's. */
  datatype Message = HumanMessage(content: string) | AIMessage(content: string) | OtherMessage(content: string)

  /** The configured default window, `config.short_term_window`. */
  const DefaultWindow: int := 20

  /**
   * Python's `s[-n:]`: the slice that starts `n` places before the end. For a
   * positive `n` these are the last `n` elements (all of them when there are
   * fewer); `n == 0` starts the slice at index 0 and so keeps everything; a
   * negative `n` starts it at `-n` and so drops the first `-n` elements.
   */
  function PyTail<T>(s: seq<T>, n: int): (r: seq<T>)
    ensures |r| <= |s| && r == s[|s| - |r|..]
    ensures n <= 0 ==> |r| == (if -n < |s| then |s| + n else 0)
  {
    if n > 0 then (if n < |s| then s[|s| - n..] else s)
    else if -n < |s| then s[-n..]
    else []
  }

  /** The last `n` elements, none for `n <= 0`: what "the most recent n messages" means. */
  function LastN<T>(s: seq<T>, n: int): (r: seq<T>)
    ensures |r| == (if n <= 0 then 0 else if n < |s| then n else |s|)
    ensures |r| <= |s| && r == s[|s| - |r|..]
  {
    if n <= 0 then [] else if n < |s| then s[|s| - n..] else s
  }

  /** For a positive count the Python slice and the intended last-`n` agree. */
  lemma PyTailPositive<T>(s: seq<T>, n: int)
    requires n > 0
    ensures PyTail(s, n) == LastN(s, n)
  {
  }

  /** `get_recent(0)` returns every message rather than none. */
  lemma PyTailZero<T>(s: seq<T>)
    ensures PyTail(s, 0) == s
    ensures s != [] ==> PyTail(s, 0) != LastN(s, 0)
  {
  }

  /** One rendered line of `get_context_string`. */
  function Render(m: Message): string {
    (if m.HumanMessage? then "用戶" else "AI") + ": " + m.content
  }

  function RenderAll(ms: seq<Message>): (lines: seq<string>)
    ensures |lines| == |ms|
    ensures forall i :: 0 <= i < |ms| ==> lines[i] == Render(ms[i])
  {
    if ms == [] then [] else [Render(ms[0])] + RenderAll(ms[1..])
  }

  class ShortTermMemory {
    const maxMessages: int
    var messages: seq<Message>

    /**
     * `max_messages or config.short_term_window`: a missing or zero size
     * selects the default (a missing size is passed as 0 here).
     */
    constructor(maxMessages: int)
      ensures this.maxMessages == if maxMessages == 0 then DefaultWindow else maxMessages
      ensures messages == []
    {
      this.maxMessages := if maxMessages == 0 then DefaultWindow else maxMessages;
      messages := [];
    }

    /** A positive window never holds more than its size. */
    ghost predicate Valid()
      reads this
    {
      maxMessages > 0 ==> |messages| <= maxMessages
    }

    /** `add(message)`: append, then cut back to the last `max_messages` when the list outgrew it. */
    method Add(message: Message)
      requires Valid()
      modifies this
      ensures Valid()
      ensures messages == Appended(old(messages), message, maxMessages)
    {
      messages := messages + [message];
      if |messages| > maxMessages {
        messages := PyTail(messages, maxMessages);
      }
    }

    method AddUserMessage(content: string)
      requires Valid()
      modifies this
      ensures Valid()
      ensures messages == Appended(old(messages), HumanMessage(content), maxMessages)
    {
      Add(HumanMessage(content));
    }

    method AddAiMessage(content: string)
      requires Valid()
      modifies this
      ensures Valid()
      ensures messages == Appended(old(messages), AIMessage(content), maxMessages)
    {
      Add(AIMessage(content));
    }

    /** `get_recent(n)`, as written: `messages[-n:]`. */
    function GetRecent(n: int): (r: seq<Message>)
      reads this
      ensures |r| <= |messages| && r == messages[|messages| - |r|..]
      ensures n > 0 ==> r == LastN(messages, n)
      ensures n == 0 ==> r == messages
    {
      PyTail(messages, n)
    }

    /** `get_context_string()`: the last five messages, one rendered line each, joined by newlines. */
    function ContextString(): (r: string)
      reads this
      ensures r == Text.Join(RenderAll(PyTail(messages, 5)), "\n")
      ensures messages == [] ==> r == ""
      ensures |messages| == 1 ==> r == Render(messages[0])
    {
      ContextWindow(messages);
      Text.Join(RenderAll(LastN(messages, 5)), "\n")
    }

    /** `clear()`. */
    method Clear()
      modifies this
      ensures messages == []
      ensures Valid()
    {
      messages := [];
    }

    /** `len(memory)`. */
    function Length(): (n: nat)
      reads this
      ensures n == |messages|
      ensures Valid() && maxMessages > 0 ==> n <= maxMessages
    {
      |messages|
    }
  }

  /** The message list after `add`; only reached while `|window| <= size` for a positive size. */
  function Appended(window: seq<Message>, m: Message, size: int): seq<Message> {
    var w := window + [m];
    if |w| > size then PyTail(w, size) else w
  }

  /**
   * With a positive window, `add` keeps at most `max_messages` messages, the
   * newest one last, and the kept messages are the newest ones in order.
   */
  lemma AppendedWindow(window: seq<Message>, m: Message, size: int)
    requires size > 0 && |window| <= size
    ensures |Appended(window, m, size)| == if |window| < size then |window| + 1 else size
    ensures Appended(window, m, size) == LastN(window + [m], size)
    ensures Appended(window, m, size)[|Appended(window, m, size)| - 1] == m
  {
  }

  /**
   * A sequence of `add` calls from an empty memory keeps exactly the newest
   * `size` messages of all those added.
   */
  lemma {:induction false} AddAll(added: seq<Message>, size: int)
    requires size > 0
    ensures AddedFrom([], added, size) == LastN(added, size)
    decreases |added|
  {
    if added != [] {
      var front := added[..|added| - 1];
      var m := added[|added| - 1];
      AddAll(front, size);
      assert front + [m] == added;
      var w := LastN(front, size);
      AppendedWindow(w, m, size);
      LastNSnoc(front, m, size);
    }
  }

  /** The message list after adding `added` one by one to `window`. */
  function AddedFrom(window: seq<Message>, added: seq<Message>, size: int): seq<Message>
    decreases |added|
  {
    if added == [] then window
    else Appended(AddedFrom(window, added[..|added| - 1], size), added[|added| - 1], size)
  }

  lemma LastNSnoc<T>(s: seq<T>, x: T, n: int)
    requires n > 0
    ensures LastN(LastN(s, n) + [x], n) == LastN(s + [x], n)
  {
    if |s| >= n {
      var k := |s| - n;
      var w := s[k..] + [x];
      assert LastN(s, n) == s[k..];
      assert LastN(w, n) == w[1..];
      assert w[1..] == s[k + 1..] + [x];
      assert (s + [x])[k + 1..] == s[k + 1..] + [x];
    }
  }

  /** The context shows at most five messages, the newest last, agreeing with `messages[-5:]`. */
  lemma ContextWindow(messages: seq<Message>)
    ensures |LastN(messages, 5)| <= 5
    ensures LastN(messages, 5) == PyTail(messages, 5)
    ensures messages != [] ==> LastN(messages, 5)[|LastN(messages, 5)| - 1] == messages[|messages| - 1]
  {
    PyTailPositive(messages, 5);
  }
}
