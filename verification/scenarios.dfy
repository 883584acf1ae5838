/**
 Concrete sessions matching the component's test file, and one showing that
 clock-derived ids can collide.
 */
module Scenarios {
  import opened JsText
  import opened Seqs
  import opened Messages
  import opened Storage
  import opened Chat
  import opened Session

  /** A fresh page with empty storage. */
  function Fresh(): State {
    Mount(Absent, true)
  }

  /** "Hello!" and the other words below are not blank. */
  lemma NotBlank(text: string)
    requires |text| > 0 && !IsWhitespace(text[0])
    ensures !IsBlank(text)
  {
    BlankIffAllWhitespace(text);
  }

  /** Sending "Hello!" shows it; when the timer fires, "Echo: Hello!" from
      `ai` follows, and storage holds both. */
  lemma SendHelloThenEcho()
    ensures var s1 := Apply(Fresh(), Type("Hello!"), true);
      var s2 := Apply(s1, Send(1000, "10:00:00"), true);
      && s2.messages == [Message(1000, "Hello!", "10:00:00", User)]
      && s2.pending == ["Hello!"]
      && Persisted(s2)
      && Enabled(s2, Reply(1500, "10:00:01"))
      && Apply(s2, Reply(1500, "10:00:01"), true).messages
         == [Message(1000, "Hello!", "10:00:00", User), Message(1501, "Echo: Hello!", "10:00:01", Ai)]
      && Persisted(Apply(s2, Reply(1500, "10:00:01"), true))
  {
    NotBlank("Hello!");
    assert EchoPrefix + "Hello!" == "Echo: Hello!";
  }

  /** Three spaces are rejected: no message, no reply scheduled. */
  lemma SendSpacesIgnored()
    ensures var s1 := Apply(Fresh(), Type("   "), true);
      var s2 := Apply(s1, Send(1000, "10:00:00"), true);
      s2.messages == [] && s2.pending == []
  {
    BlankIffAllWhitespace("   ");
  }

  /** A stored one-message array is shown on mount; "invalid json" is
      discarded and the page starts empty. */
  lemma MountFromStorage()
    ensures var saved := [Message(1, "Saved message", "12:00:00", User)];
      Mount(JsonArray(saved), true).messages == saved
    ensures Mount(Malformed, true).messages == []
    ensures Load(Malformed).slot == Absent
  {
  }

  /** An occurrence begins with the needle's first character. */
  lemma OccursAtStart(hay: string, needle: string, i: int)
    requires OccursAt(hay, needle, i) && |needle| > 0
    ensures hay[i] == needle[0]
  {
    assert hay[i..i + |needle|][0] == hay[i];
  }

  /** "second message" does not contain "first". */
  lemma NoFirstInSecond()
    ensures !Includes("second message", "first")
  {
    var hay := "second message";
    assert forall j :: 0 <= j < |hay| ==> hay[j] != 'f';
    forall i | OccursAt(hay, "first", i)
      ensures false
    {
      OccursAtStart(hay, "first", i);
    }
  }

  /** The search term "First" matches "First message" and not "Second
      message". */
  lemma FirstMatches()
    ensures Matches(Message(1, "First message", "t", User), "First")
    ensures !Matches(Message(2, "Second message", "t", User), "First")
  {
    assert ToLower("First") == "first";
    assert ToLower("First message") == "first message";
    assert ToLower("Second message") == "second message";
    assert OccursAt("first message", "first", 0);
    NoFirstInSecond();
  }

  /** Searching for "First" after sending "First message" and "Second
      message" shows only the first. */
  lemma SearchFirst()
    ensures var a := Message(1, "First message", "t", User);
      var b := Message(2, "Second message", "t", User);
      Visible([a, b], "First") == [a]
  {
    var a := Message(1, "First message", "t", User);
    var b := Message(2, "Second message", "t", User);
    FirstMatches();
    var k := (m: Message) => Matches(m, "First");
    assert [a, b][1..] == [b];
    assert Filter([b], k) == [] by {
      assert [b][1..] == [];
    }
  }

  /** Deleting the only message empties the list; deleting the same id
      again changes nothing. */
  lemma DeleteTwice()
    ensures var m := Message(7, "Delete me", "t", User);
      var s1 := Apply(Fresh().(messages := [m], slot := JsonArray([m])), Remove(7), true);
      && s1.messages == []
      && Apply(s1, Remove(7), true) == s1
  {
    var m := Message(7, "Delete me", "t", User);
    DeleteCount([m], 7);
    DeleteAbsent([], 7);
  }

  /** Typing a non-blank text and sending it: one user message and one
      reply scheduled. */
  lemma TypeAndSend(s: State, text: string, now: int, time: string)
    requires !AllWhitespace(text)
    ensures var r := Apply(Apply(s, Type(text), true), Send(now, time), true);
      && r.messages == s.messages + [UserMessage(text, now, time)]
      && r.pending == s.pending + [text]
  {
    BlankIffAllWhitespace(text);
  }

  /** The oldest reply timer firing. */
  lemma ReplyStep(s: State, now: int, time: string)
    requires |s.pending| > 0
    ensures Enabled(s, Reply(now, time))
    ensures var r := Apply(s, Reply(now, time), true);
      && r.messages == s.messages + [ReplyMessage(s.pending[0], now, time)]
      && r.pending == s.pending[1..]
  {
  }

  /** Ids are clock readings, so the reply to one message (clock + 1 when
      its timer fires) and a message sent one millisecond later share an id. */
  lemma ReplyIdCollides(s: State, x: string, y: string, t0: int, t1: int,
                        ts0: string, ts1: string, ts2: string)
    requires s.pending == [] && !AllWhitespace(x) && !AllWhitespace(y)
    ensures var s1 := Apply(Apply(s, Type(x), true), Send(t0, ts0), true);
      && Enabled(s1, Reply(t1, ts1))
      && var s2 := Apply(Apply(s1, Reply(t1, ts1), true), Type(y), true);
      var s3 := Apply(s2, Send(t1 + 1, ts2), true);
      && s3.messages == s.messages + [UserMessage(x, t0, ts0), ReplyMessage(x, t1, ts1), UserMessage(y, t1 + 1, ts2)]
      && ReplyMessage(x, t1, ts1).id == UserMessage(y, t1 + 1, ts2).id
  {
    TypeAndSend(s, x, t0, ts0);
    ReplyThenSend(Apply(Apply(s, Type(x), true), Send(t0, ts0), true), s.messages, x, y, t0, t1, ts0, ts1, ts2);
  }

  /** The second half of the session above, from the state after the first
      send. */
  lemma ReplyThenSend(s1: State, before: seq<Message>, x: string, y: string, t0: int, t1: int,
                      ts0: string, ts1: string, ts2: string)
    requires s1.pending == [x] && s1.messages == before + [UserMessage(x, t0, ts0)]
    requires !AllWhitespace(y)
    ensures var s2 := Apply(Apply(s1, Reply(t1, ts1), true), Type(y), true);
      Apply(s2, Send(t1 + 1, ts2), true).messages
      == before + [UserMessage(x, t0, ts0), ReplyMessage(x, t1, ts1), UserMessage(y, t1 + 1, ts2)]
  {
    ReplyStep(s1, t1, ts1);
    TypeAndSend(Apply(s1, Reply(t1, ts1), true), y, t1 + 1, ts2);
  }

  /** Deleting an id shared by the last two of three appended messages
      removes both, as after the collision above. */
  lemma DeleteSharedId(a: seq<Message>, u: Message, e: Message, v: Message, x: int)
    requires forall i :: 0 <= i < |a| ==> a[i].id != x
    requires e.id == x && v.id == x
    ensures |Delete(a + [u, e, v], x)| == |a| + (if u.id == x then 0 else 1)
  {
    CountIdAppend(a, [u, e, v], x);
    CountIdNone(a, x);
    assert CountId([u, e, v], x) == (if u.id == x then 3 else 2) by {
      assert [u, e, v][1..] == [e, v];
      assert [e, v][1..] == [v];
      assert [v][1..] == [];
      assert CountId([v], x) == 1;
      assert CountId([e, v], x) == 2;
    }
    DeleteCount(a + [u, e, v], x);
  }
}
