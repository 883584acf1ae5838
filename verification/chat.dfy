/**
 The state machine of the chat component: the message list, the input box,
 the search box, the echo replies still waiting on their 500 ms timer, and the
 storage slot the list is mirrored to. Clock readings and display timestamps
 are parameters; the timer callback is an explicit `Reply` event.
 */
module Chat {
  import opened JsText
  import opened Seqs
  import opened Messages
  import opened Storage

  /** The text every echo reply starts with. */
  const EchoPrefix: string := "Echo: "

  /** `pending` holds the input captured by each scheduled reply timer. All
      timers share one delay, so they fire in the order they were set. */
  datatype State = State(
    messages: seq<Message>,
    input: string,
    searchTerm: string,
    pending: seq<string>,
    slot: Slot)

  /** The record `sendMessage` appends; `now` is `Date.now()` at the click. */
  function UserMessage(text: string, now: int, time: string): Message {
    Message(now, text, time, User)
  }

  /** The record the timer callback appends; `now` is `Date.now()` when the
      timer fires, and the id is one past it. */
  function ReplyMessage(captured: string, now: int, time: string): Message {
    Message(now + 1, EchoPrefix + captured, time, Ai)
  }

  /** `sendMessage`: whitespace-only input is ignored; otherwise the input is
      appended untrimmed as a user message, the box is cleared, and one reply
      carrying the input is scheduled. */
  function SendMessage(s: State, now: int, time: string): (r: State)
    ensures AllWhitespace(s.input) ==> r == s
    ensures !AllWhitespace(s.input) ==>
      && |r.messages| == |s.messages| + 1
      && r.messages[..|s.messages|] == s.messages
      && r.messages[|s.messages|].text == s.input
      && r.messages[|s.messages|].sender == User
      && r.messages[|s.messages|].id == now
      && r.messages[|s.messages|].timestamp == time
      && r.input == ""
      && r.pending == s.pending + [s.input]
      && r.searchTerm == s.searchTerm
      && r.slot == s.slot
  {
    BlankIffAllWhitespace(s.input);
    if IsBlank(s.input) then s
    else
      s.(messages := s.messages + [UserMessage(s.input, now, time)],
         input := "",
         pending := s.pending + [s.input])
  }

  /** The reply timer firing: the oldest pending input is echoed after
      whatever the list holds at that moment. */
  function FireReply(s: State, now: int, time: string): (r: State)
    requires |s.pending| > 0
    ensures |r.messages| == |s.messages| + 1
    ensures r.messages[..|s.messages|] == s.messages
    ensures r.messages[|s.messages|].text == EchoPrefix + s.pending[0]
    ensures r.messages[|s.messages|].sender == Ai
    ensures r.messages[|s.messages|].id == now + 1
    ensures r.messages[|s.messages|].timestamp == time
    ensures r.pending == s.pending[1..]
    ensures r.input == s.input && r.searchTerm == s.searchTerm && r.slot == s.slot
  {
    s.(messages := s.messages + [ReplyMessage(s.pending[0], now, time)],
       pending := s.pending[1..])
  }

  /** How many messages carry the id `x`. */
  function CountId(messages: seq<Message>, x: int): nat {
    if |messages| == 0 then 0
    else (if messages[0].id == x then 1 else 0) + CountId(messages[1..], x)
  }

  /** `messages.filter(msg => msg.id !== x)`: every message with that id
      goes, every other one stays with all its copies, in order. */
  function Delete(messages: seq<Message>, x: int): (r: seq<Message>)
    ensures forall i :: 0 <= i < |r| ==> r[i].id != x
    ensures forall m :: m in messages && m.id != x ==> m in r
    ensures forall m :: multiset(r)[m] == if m.id != x then multiset(messages)[m] else 0
    ensures IsSubseq(r, messages)
  {
    var r := Filter(messages, (m: Message) => m.id != x);
    assert forall i :: 0 <= i < |r| ==> r[i] in r;
    r
  }

  /** `deleteMessage`. */
  function DeleteMessage(s: State, x: int): (r: State)
    ensures r.messages == Delete(s.messages, x)
    ensures r.input == s.input && r.pending == s.pending && r.searchTerm == s.searchTerm
    ensures r.slot == s.slot
  {
    s.(messages := Delete(s.messages, x))
  }

  /** `clearAllMessages`: nothing happens on an empty list (no question is
      asked); otherwise the list is emptied exactly when the user confirms. */
  function ClearAll(s: State, confirmed: bool): (r: State)
    ensures |s.messages| == 0 || !confirmed ==> r == s
    ensures |s.messages| > 0 && confirmed ==> r == s.(messages := [])
  {
    if |s.messages| == 0 then s
    else if confirmed then s.(messages := [])
    else s
  }

  /** The search predicate: the lowercased text contains the lowercased term. */
  predicate Matches(m: Message, term: string) {
    Includes(ToLower(m.text), ToLower(term))
  }

  /** `filteredMessages`: the messages matching the term, in list order,
      each shown as many times as it occurs in the list. */
  function Visible(messages: seq<Message>, term: string): (r: seq<Message>)
    ensures IsSubseq(r, messages)
    ensures forall m :: m in r <==> m in messages && Matches(m, term)
    ensures forall m :: multiset(r)[m] == if Matches(m, term) then multiset(messages)[m] else 0
  {
    Filter(messages, (m: Message) => Matches(m, term))
  }

  /** The content of an exported file. It is `JSON.stringify` of a message
      list, as the storage entry is, so it is classified the same way: what
      `JSON.parse` makes of it. */
  type Payload = Slot

  /** The exported file: the whole list, whatever the search box holds. */
  function Export(s: State): (payload: Payload)
    ensures Load(payload).messages == s.messages
  {
    Serialize(s.messages)
  }

  /** A reply's text is the prefix followed by the captured input,
      untrimmed and untruncated: dropping the prefix gives the input back. */
  lemma EchoRecoversInput(captured: string, now: int, time: string)
    ensures var t := ReplyMessage(captured, now, time).text;
      |t| >= |EchoPrefix| && t[..|EchoPrefix|] == EchoPrefix && t[|EchoPrefix|..] == captured
  {
  }

  /** Sending and then letting the timer fire, with any typing in between,
      appends the user message and then its echo, which carries the input as
      it was at the click. */
  lemma SendThenReply(s: State, typed: string, t0: int, ts0: string, t1: int, ts1: string)
    requires !AllWhitespace(s.input) && s.pending == []
    ensures var s1 := SendMessage(s, t0, ts0).(input := typed);
      && |s1.pending| > 0
      && FireReply(s1, t1, ts1).messages
         == s.messages + [UserMessage(s.input, t0, ts0), ReplyMessage(s.input, t1, ts1)]
      && FireReply(s1, t1, ts1).pending == []
  {
    var s1 := SendMessage(s, t0, ts0).(input := typed);
    assert s1.messages == s.messages + [UserMessage(s.input, t0, ts0)];
  }

  /** Deletion returns the list unchanged exactly when no message carries
      the id. */
  lemma DeleteAbsent(messages: seq<Message>, x: int)
    ensures Delete(messages, x) == messages <==> forall i :: 0 <= i < |messages| ==> messages[i].id != x
  {
    if forall i :: 0 <= i < |messages| ==> messages[i].id != x {
      FilterKeepsAll(messages, (m: Message) => m.id != x);
    } else {
      DeleteCount(messages, x);
      CountIdNone(messages, x);
    }
  }

  /** Deleting the same id twice is deleting it once. */
  lemma DeleteIdempotent(messages: seq<Message>, x: int)
    ensures Delete(Delete(messages, x), x) == Delete(messages, x)
  {
    DeleteAbsent(Delete(messages, x), x);
  }

  /** Deletion removes exactly as many messages as carry the id, so with
      unique ids it removes one message, and with a repeated id it removes
      them all. */
  lemma {:induction false} DeleteCount(messages: seq<Message>, x: int)
    ensures |Delete(messages, x)| == |messages| - CountId(messages, x)
    decreases |messages|
  {
    if |messages| > 0 {
      DeleteCount(messages[1..], x);
    }
  }

  /** Counting over a concatenation. */
  lemma {:induction false} CountIdAppend(a: seq<Message>, b: seq<Message>, x: int)
    ensures CountId(a + b, x) == CountId(a, x) + CountId(b, x)
    decreases |a|
  {
    if |a| == 0 {
      assert a + b == b;
    } else {
      CountIdAppend(a[1..], b, x);
      assert (a + b)[1..] == a[1..] + b;
    }
  }

  /** The count is zero exactly when no message carries the id. */
  lemma {:induction false} CountIdNone(a: seq<Message>, x: int)
    ensures CountId(a, x) == 0 <==> forall i :: 0 <= i < |a| ==> a[i].id != x
    decreases |a|
  {
    if |a| > 0 {
      CountIdNone(a[1..], x);
      assert forall i :: 1 <= i < |a| ==> a[i] == a[1..][i - 1];
    }
  }

  /** A disabled Send button guards exactly the input `sendMessage` ignores. */
  lemma SendDisabledIsNoOp(s: State, now: int, time: string)
    ensures !SendEnabled(s) <==> AllWhitespace(s.input)
    ensures !SendEnabled(s) ==> SendMessage(s, now, time) == s
  {
    BlankIffAllWhitespace(s.input);
  }

  /** A disabled Clear button guards a click that would do nothing anyway. */
  lemma ClearDisabledIsNoOp(s: State, confirmed: bool)
    ensures !ClearEnabled(s) ==> ClearAll(s, confirmed) == s
  {
  }

  /** Clearing is idempotent, and once confirmed, a further clear with any
      answer changes nothing. */
  lemma ClearIdempotent(s: State, confirmed: bool, again: bool)
    ensures ClearAll(ClearAll(s, confirmed), confirmed) == ClearAll(s, confirmed)
    ensures ClearAll(ClearAll(s, true), again) == ClearAll(s, true)
  {
  }

  /** The empty search term shows the whole list. */
  lemma VisibleEmptyTerm(messages: seq<Message>)
    ensures Visible(messages, "") == messages
  {
    forall m | m in messages
      ensures Matches(m, "")
    {
      IncludesEmpty(ToLower(m.text));
    }
    FilterKeepsAll(messages, (m: Message) => Matches(m, ""));
  }

  /** Only the lowercase form of the term matters. */
  lemma VisibleCaseInsensitive(messages: seq<Message>, term: string)
    ensures Visible(messages, term) == Visible(messages, ToLower(term))
  {
    ToLowerIdempotent(term);
    FilterCongruent(messages, (m: Message) => Matches(m, term), (m: Message) => Matches(m, ToLower(term)));
  }

  /** The button guards: Send is disabled on blank input, Clear and Export on
      an empty list. */
  predicate SendEnabled(s: State) { !IsBlank(s.input) }
  predicate ClearEnabled(s: State) { |s.messages| > 0 }
  predicate ExportEnabled(s: State) { |s.messages| > 0 }

  /** A disabled Export button guards exactly the exports that would hold no
      message. */
  lemma ExportDisabledIsEmpty(s: State)
    ensures !ExportEnabled(s) <==> Load(Export(s)).messages == []
  {
  }
}
