/**
 A session of the chat component: mounting (load, then the save effect of the
 first render), user and timer events, and the save effect that runs after
 every change of the message list.
 */
module Session {
  import opened JsText
  import opened Seqs
  import opened Messages
  import opened Storage
  import opened Chat

  /** What can happen: typing into the input or search box, clicking Send
      (or pressing Enter), a reply timer firing, clicking a message's delete
      button, and clicking Clear with the user's answer to the dialog. */
  datatype Event =
    | Type(text: string)
    | Search(term: string)
    | Send(now: int, time: string)
    | Reply(now: int, time: string)
    | Remove(id: int)
    | Clear(confirmed: bool)

  /** A reply timer can only fire when one was set. */
  predicate Enabled(s: State, e: Event) {
    e.Reply? ==> |s.pending| > 0
  }

  /** The handler's effect on the state, before the save effect. */
  function Handle(s: State, e: Event): State
    requires Enabled(s, e)
  {
    match e
    case Type(text) => s.(input := text)
    case Search(term) => s.(searchTerm := term)
    case Send(now, time) => SendMessage(s, now, time)
    case Reply(now, time) => FireReply(s, now, time)
    case Remove(id) => DeleteMessage(s, id)
    case Clear(confirmed) => ClearAll(s, confirmed)
  }

  /** The handler calls `setMessages`, so the save effect, which depends on
      the list, runs afterwards. Every handler but delete calls it exactly
      when the list changes; `filter` always builds a new array, so a delete
      counts even when it removes nothing. */
  predicate SetsMessages(s: State, e: Event): (r: bool)
    requires Enabled(s, e)
    ensures !e.Remove? ==> (r <==> Handle(s, e).messages != s.messages)
    ensures e.Remove? ==> r
  {
    BlankIffAllWhitespace(s.input);
    match e
    case Send(_, _) => !IsBlank(s.input)
    case Reply(_, _) => true
    case Remove(_) => true
    case Clear(confirmed) => |s.messages| > 0 && confirmed
    case _ => false
  }

  /** The slot holds the serialisation of the current list. */
  predicate Persisted(s: State) {
    s.slot == Serialize(s.messages)
  }

  /** The handler followed by the save effect when the list was set;
      `writeOk` says whether `localStorage.setItem` accepts the write. */
  function Apply(s: State, e: Event, writeOk: bool): (r: State)
    requires Enabled(s, e)
    ensures r == Handle(s, e).(slot := r.slot)
    ensures !SetsMessages(s, e) ==> r.slot == s.slot
    ensures SetsMessages(s, e) ==> r.slot == Save(s.slot, r.messages, writeOk)
    ensures !writeOk ==> r.slot == s.slot
  {
    var h := Handle(s, e);
    if SetsMessages(s, e) then h.(slot := Save(h.slot, h.messages, writeOk)) else h
  }

  /** With working storage, the slot mirrors the list after every event
      that sets it, and keeps mirroring it after every other event. */
  lemma ApplyPersists(s: State, e: Event)
    requires Enabled(s, e)
    requires Persisted(s) || SetsMessages(s, e)
    ensures Persisted(Apply(s, e, true))
  {
    if !SetsMessages(s, e) {
      match e {
        case Send(now, time) =>
          assert Handle(s, e) == s;
        case Clear(confirmed) =>
          assert Handle(s, e) == s;
        case _ =>
      }
    }
  }

  /** The messages an event appends to the list, in order. */
  function Inserted(s: State, e: Event): seq<Message> {
    match e
    case Send(now, time) => if IsBlank(s.input) then [] else [UserMessage(s.input, now, time)]
    case Reply(now, time) => if |s.pending| > 0 then [ReplyMessage(s.pending[0], now, time)] else []
    case _ => []
  }

  /** Each event either appends its inserted messages to the list or deletes
      from it; nothing is reordered. */
  lemma ApplyShape(s: State, e: Event, writeOk: bool)
    requires Enabled(s, e)
    ensures (e.Send? || e.Reply?) ==> Apply(s, e, writeOk).messages == s.messages + Inserted(s, e)
    ensures IsSubseq(Apply(s, e, writeOk).messages, s.messages + Inserted(s, e))
  {
    var r := Apply(s, e, writeOk);
    var full := s.messages + Inserted(s, e);
    match e {
      case Send(now, time) =>
        BlankIffAllWhitespace(s.input);
        if IsBlank(s.input) {
          assert full == s.messages;
        }
        SubseqRefl(full);
      case Reply(now, time) =>
        SubseqRefl(full);
      case Remove(id) =>
        assert full == s.messages;
      case Clear(confirmed) =>
        assert full == s.messages;
        if |s.messages| > 0 && confirmed {
          assert r.messages == [];
        } else {
          SubseqRefl(full);
        }
      case Type(_) =>
        assert full == s.messages;
        SubseqRefl(full);
      case Search(_) =>
        assert full == s.messages;
        SubseqRefl(full);
    }
  }

  /** Every write of a run was accepted. */
  predicate AllAccepted(writes: seq<bool>) {
    forall i :: 0 <= i < |writes| ==> writes[i]
  }

  /** Every write of a run was refused. */
  predicate AllRefused(writes: seq<bool>) {
    forall i :: 0 <= i < |writes| ==> !writes[i]
  }

  /** Runs the events in order; `writes[i]` says whether storage accepts the
      write after event `i`, if that event sets the list. An event that cannot
      occur in the state it meets (a reply with no timer set) is not an event
      and is skipped. */
  function Run(s: State, events: seq<Event>, writes: seq<bool>): (r: State)
    requires |writes| == |events|
    ensures AllRefused(writes) ==> r.slot == s.slot
    decreases |events|
  {
    if |events| == 0 then s
    else if Enabled(s, events[0]) then Run(Apply(s, events[0], writes[0]), events[1..], writes[1..])
    else Run(s, events[1..], writes[1..])
  }

  /** Everything a run appends, in the order it was appended. */
  function InsertedBy(s: State, events: seq<Event>, writes: seq<bool>): seq<Message>
    requires |writes| == |events|
    decreases |events|
  {
    if |events| == 0 then []
    else if Enabled(s, events[0]) then
      Inserted(s, events[0]) + InsertedBy(Apply(s, events[0], writes[0]), events[1..], writes[1..])
    else InsertedBy(s, events[1..], writes[1..])
  }

  /** After any run, the list is the starting list followed by everything
      appended, with some messages deleted: survivors keep insertion order. */
  lemma {:induction false} RunKeepsInsertionOrder(s: State, events: seq<Event>, writes: seq<bool>)
    requires |writes| == |events|
    ensures IsSubseq(Run(s, events, writes).messages, s.messages + InsertedBy(s, events, writes))
    decreases |events|
  {
    if |events| == 0 {
      assert s.messages + [] == s.messages;
      SubseqRefl(s.messages);
    } else if Enabled(s, events[0]) {
      var e := events[0];
      var s1 := Apply(s, e, writes[0]);
      var rest := InsertedBy(s1, events[1..], writes[1..]);
      var last := Run(s1, events[1..], writes[1..]);
      assert Run(s, events, writes) == last;
      assert InsertedBy(s, events, writes) == Inserted(s, e) + rest;
      RunKeepsInsertionOrder(s1, events[1..], writes[1..]);
      ApplyShape(s, e, writes[0]);
      SubseqThrough(last.messages, s1.messages, s.messages, Inserted(s, e), rest);
    } else {
      RunKeepsInsertionOrder(s, events[1..], writes[1..]);
    }
  }

  /** One step of the induction above: if `mid` is drawn in order from
      `start + ins`, and `end` from `mid + rest`, then `end` is drawn in order
      from `start + (ins + rest)`. */
  lemma SubseqThrough(end: seq<Message>, mid: seq<Message>, start: seq<Message>,
                      ins: seq<Message>, rest: seq<Message>)
    requires IsSubseq(mid, start + ins) && IsSubseq(end, mid + rest)
    ensures IsSubseq(end, start + (ins + rest))
  {
    SubseqAppend(mid, start + ins, rest);
    assert start + ins + rest == start + (ins + rest);
    SubseqTrans(end, mid + rest, start + (ins + rest));
  }

  /** With working storage, a persisted state stays persisted through any run. */
  lemma {:induction false} RunKeepsPersisted(s: State, events: seq<Event>, writes: seq<bool>)
    requires |writes| == |events| && AllAccepted(writes)
    requires Persisted(s)
    ensures Persisted(Run(s, events, writes))
    decreases |events|
  {
    if |events| > 0 {
      assert writes[0];
      if Enabled(s, events[0]) {
        ApplyPersists(s, events[0]);
        RunKeepsPersisted(Apply(s, events[0], true), events[1..], writes[1..]);
      } else {
        RunKeepsPersisted(s, events[1..], writes[1..]);
      }
    }
  }

  /** A refused write never changes what the user sees: the list, the input
      and search boxes and the pending replies after a run do not depend on
      which writes storage accepted, nor on what the slot held; when every
      write is refused the slot is left as it was. */
  lemma {:induction false} RunIgnoresWriteFailures(s: State, t: State, events: seq<Event>,
                                                   w1: seq<bool>, w2: seq<bool>)
    requires |w1| == |events| && |w2| == |events|
    requires t == s.(slot := t.slot)
    ensures var a := Run(s, events, w1); var b := Run(t, events, w2);
      a == b.(slot := a.slot)
    ensures AllRefused(w1) ==> Run(s, events, w1).slot == s.slot
    decreases |events|
  {
    if |events| > 0 {
      assert Enabled(s, events[0]) == Enabled(t, events[0]);
      if Enabled(s, events[0]) {
        var a := Apply(s, events[0], w1[0]);
        var b := Apply(t, events[0], w2[0]);
        assert b == a.(slot := b.slot);
        RunIgnoresWriteFailures(a, b, events[1..], w1[1..], w2[1..]);
      } else {
        RunIgnoresWriteFailures(s, t, events[1..], w1[1..], w2[1..]);
      }
    }
  }

  /** Mounting: the load effect runs, then the save effect of the first
      render writes the still-empty list, and if the load set a list, the
      re-render saves that list too. */
  function Mount(slot: Slot, writeOk: bool): (r: State)
    ensures r.messages == Load(slot).messages
    ensures r.input == "" && r.searchTerm == "" && r.pending == []
    ensures writeOk ==> Persisted(r)
    ensures !writeOk ==> r.slot == Load(slot).slot
  {
    var loaded := Load(slot);
    var afterFirstRender := Save(loaded.slot, [], writeOk);
    var finalSlot := if slot.JsonArray? then Save(afterFirstRender, loaded.messages, writeOk)
                     else afterFirstRender;
    State(loaded.messages, "", "", [], finalSlot)
  }

  /** Reloading the page after any session with working storage shows the
      list exactly as it was left. */
  lemma ReloadRestores(slot: Slot, events: seq<Event>, writes: seq<bool>)
    requires |writes| == |events| && AllAccepted(writes)
    ensures var s := Run(Mount(slot, true), events, writes);
      Mount(s.slot, true).messages == s.messages
  {
    RunKeepsPersisted(Mount(slot, true), events, writes);
  }
}
