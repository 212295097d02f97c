/** The message exchange of the chat box as a state machine over values:
    the conversation log, the text in the input field and the number of
    reply timers that were started and have not fired yet. The class in
    ChatBox.dfy holds the same state in fields and is proved against the
    step functions here. */
module Exchange {
  import opened Text

  /** One entry of the conversation log (`MessageData`). `timestamp` is the
      clock reading, in milliseconds, that `new Date()` returned. */
  datatype Msg = Msg(id: string, text: string, isSender: bool, timestamp: nat)

  /** What the component keeps between events: the `messages` state, the
      `inputMessage` state and the reply timers still outstanding. */
  datatype State = State(messages: seq<Msg>, input: string, pending: nat)

  /** An event the component reacts to. `now` stands for the value
      `Date.now()` returns when the record is made and `at` for the time
      `new Date()` reads; `r` stands for the value of `Math.random()`. */
  datatype Event =
    | Edit(value: string)                  // the input's onChange
    | Click(now: nat, at: nat)             // the send button
    | Key(key: string, now: nat, at: nat)  // a key pressed in the input
    | Fire(r: real, now: nat, at: nat)     // one pending reply timer runs

  datatype Option<T> = None | Some(value: T)

  const WelcomeId: string := "1"
  const WelcomeText: string := "\U{1F44B} Welcome to Snapchat Messenger!"

  /** The candidate texts of the simulated reply, in the order listed. */
  const Replies: seq<string> := [
    "That's awesome! \U{1F601}",
    "Tell me more!",
    "Cool! What else is new?",
    "Interesting, I'd love to hear more about that!",
    "Nice! Have you tried the new Snapchat filters?",
    "Haha, that's funny! \U{1F602}"
  ]

  function Last<T>(s: seq<T>): T
    requires s != []
  {
    s[|s| - 1]
  }

  /** The state on mount: the log seeded with the welcome record, an empty
      input and no reply scheduled. */
  function Init(at: nat): (s: State)
    ensures |s.messages| == 1 && s.input == "" && s.pending == 0
    ensures s.messages[0].id == "1" && s.messages[0].text == WelcomeText
    ensures !s.messages[0].isSender && s.messages[0].timestamp == at
  {
    State([Msg(WelcomeId, WelcomeText, false, at)], "", 0)
  }

  /** `Math.floor(r * n)`: the index a random number picks out of `n`
      candidates. */
  function ReplyIndex(r: real, n: nat): (i: nat)
    requires 0.0 <= r < 1.0 && n > 0
    ensures i < n
    ensures i as real <= r * n as real < i as real + 1.0
  {
    ProductBelow(r, n);
    (r * n as real).Floor
  }

  lemma ProductBelow(r: real, n: nat)
    requires 0.0 <= r < 1.0 && n > 0
    ensures 0.0 <= r * n as real < n as real
  {
  }

  /** Every candidate can be drawn: the random number `i / n` picks the
      `i`-th one. */
  lemma ReplyIndexReachesAll(i: nat, n: nat)
    requires i < n
    ensures 0.0 <= i as real / n as real < 1.0
    ensures ReplyIndex(i as real / n as real, n) == i
  {
  }

  /** The reply text the timer picks for random number `r`. */
  function ReplyText(r: real): (t: string)
    requires 0.0 <= r < 1.0
    ensures t in Replies
  {
    Replies[ReplyIndex(r, |Replies|)]
  }

  /** The send handler (the button's onClick). Blank input (`trim()` gives
      the empty string) changes nothing. Otherwise a sender record with the
      untrimmed input is appended, the input is cleared and one reply timer
      is started. */
  function AfterSend(s: State, now: nat, at: nat): (t: State)
    ensures IsBlank(s.input) ==> t == s
    ensures !IsBlank(s.input) ==>
      |t.messages| == |s.messages| + 1 && t.messages[..|s.messages|] == s.messages &&
      Last(t.messages).isSender && Last(t.messages).text == s.input &&
      Last(t.messages).id == Decimal(now) && Last(t.messages).timestamp == at &&
      t.input == "" && t.pending == s.pending + 1
  {
    if IsBlank(s.input) then s
    else
      var sent := Msg(Decimal(now), s.input, true, at);
      State(s.messages + [sent], "", s.pending + 1)
  }

  /** One reply timer fires: a non-sender record with the candidate picked
      by `r` is appended; the input is left as the user has it. */
  function AfterReply(s: State, r: real, now: nat, at: nat): (t: State)
    requires s.pending > 0 && 0.0 <= r < 1.0
    ensures |t.messages| == |s.messages| + 1 && t.messages[..|s.messages|] == s.messages
    ensures !Last(t.messages).isSender && Last(t.messages).text == ReplyText(r)
    ensures Last(t.messages).id == Decimal(now) && Last(t.messages).timestamp == at
    ensures t.input == s.input && t.pending == s.pending - 1
  {
    var reply := Msg(Decimal(now), ReplyText(r), false, at);
    State(s.messages + [reply], s.input, s.pending - 1)
  }

  /** The input's onKeyDown: Enter sends, any other key changes nothing. */
  function AfterKeyDown(s: State, key: string, now: nat, at: nat): (t: State)
    ensures key == "Enter" ==> t == AfterSend(s, now, at)
    ensures key != "Enter" ==> t == s
  {
    if key == "Enter" then AfterSend(s, now, at) else s
  }

  /** The input's onChange: the field now holds `value`; nothing else moves. */
  function AfterEdit(s: State, value: string): (t: State)
    ensures t.input == value && t.messages == s.messages && t.pending == s.pending
  {
    s.(input := value)
  }

  /** One event applied to a state; `None` for a timer that cannot fire
      (none is pending) or a random number `Math.random` never returns.
      Every event that can happen leaves the earlier log as it was and adds
      at most one record to it. */
  function Step(s: State, e: Event): (t: Option<State>)
    ensures t.None? <==> e.Fire? && !(s.pending > 0 && 0.0 <= e.r < 1.0)
    ensures t.Some? ==>
      |s.messages| <= |t.value.messages| <= |s.messages| + 1 &&
      t.value.messages[..|s.messages|] == s.messages
  {
    match e
    case Edit(value) => Some(AfterEdit(s, value))
    case Click(now, at) => Some(AfterSend(s, now, at))
    case Key(key, now, at) => Some(AfterKeyDown(s, key, now, at))
    case Fire(r, now, at) =>
      if s.pending > 0 && 0.0 <= r < 1.0 then Some(AfterReply(s, r, now, at)) else None
  }

  /** A sequence of events applied in order; `None` once one cannot happen.
      Over any run the log is append-only, and it grows by at most one
      record per event. */
  function Run(s: State, events: seq<Event>): (t: Option<State>)
    ensures t.Some? ==>
      |s.messages| <= |t.value.messages| <= |s.messages| + |events| &&
      t.value.messages[..|s.messages|] == s.messages
    decreases |events|
  {
    if events == [] then Some(s)
    else
      match Step(s, events[0])
      case None => None
      case Some(t) => Run(t, events[1..])
  }

  // ---- counting the log ----

  /** The number of sender records in `log`. */
  function Sent(log: seq<Msg>): nat {
    if log == [] then 0
    else Sent(log[..|log| - 1]) + (if Last(log).isSender then 1 else 0)
  }

  /** The number of non-sender records in `log`. */
  function Received(log: seq<Msg>): nat {
    if log == [] then 0
    else Received(log[..|log| - 1]) + (if Last(log).isSender then 0 else 1)
  }

  /** Every prefix of the log after the welcome record holds no more replies
      than sender records: each reply answers an earlier accepted message. */
  ghost predicate RepliesFollowSends(log: seq<Msg>)
    requires log != []
  {
    forall k :: 1 <= k <= |log| ==> Received(log[1..k]) <= Sent(log[..k])
  }

  /** What every reachable state satisfies. */
  ghost predicate Inv(s: State) {
    && s.messages != []
    && s.messages[0].id == WelcomeId && s.messages[0].text == WelcomeText
    && !s.messages[0].isSender
    // replies delivered plus replies pending equals accepted sends
    && Sent(s.messages) == Received(s.messages[1..]) + s.pending
    && RepliesFollowSends(s.messages)
    && SentTextsNonBlank(s.messages)
    && RepliesAreCandidates(s.messages)
  }

  /** No blank text is ever logged as sent. */
  ghost predicate SentTextsNonBlank(log: seq<Msg>) {
    forall i :: 0 <= i < |log| && log[i].isSender ==> !IsBlank(log[i].text)
  }

  /** Every record after the welcome one that is not a sender record holds
      one of the candidate replies. */
  ghost predicate RepliesAreCandidates(log: seq<Msg>) {
    forall i :: 1 <= i < |log| && !log[i].isSender ==> log[i].text in Replies
  }

  /** Appending a record keeps both per-record conditions when the new
      record meets them itself. */
  lemma RecordConditionsAppend(log: seq<Msg>, m: Msg)
    requires log != [] && SentTextsNonBlank(log) && RepliesAreCandidates(log)
    requires m.isSender ==> !IsBlank(m.text)
    requires !m.isSender ==> m.text in Replies
    ensures SentTextsNonBlank(log + [m]) && RepliesAreCandidates(log + [m])
  {
    var log' := log + [m];
    forall i | 0 <= i < |log'| && log'[i].isSender ensures !IsBlank(log'[i].text) {
      if i < |log| { assert log'[i] == log[i]; }
    }
    forall i | 1 <= i < |log'| && !log'[i].isSender ensures log'[i].text in Replies {
      if i < |log| { assert log'[i] == log[i]; }
    }
  }

  lemma CountAppend(log: seq<Msg>, m: Msg)
    ensures Sent(log + [m]) == Sent(log) + (if m.isSender then 1 else 0)
    ensures Received(log + [m]) == Received(log) + (if m.isSender then 0 else 1)
  {
  }

  /** Appending a record keeps every earlier prefix as it was, so the
      prefix condition only has to be checked for the new full log. */
  lemma RepliesFollowSendsAppend(log: seq<Msg>, m: Msg)
    requires log != [] && RepliesFollowSends(log)
    requires Received((log + [m])[1..]) <= Sent(log + [m])
    ensures RepliesFollowSends(log + [m])
  {
    var log' := log + [m];
    forall k | 1 <= k <= |log'| ensures Received(log'[1..k]) <= Sent(log'[..k]) {
      if k <= |log| {
        assert log'[1..k] == log[1..k];
        assert log'[..k] == log[..k];
      } else {
        assert log'[..k] == log';
      }
    }
  }

  lemma InitInv(at: nat)
    ensures Inv(Init(at))
  {
  }

  lemma SendPreservesInv(s: State, now: nat, at: nat)
    requires Inv(s)
    ensures Inv(AfterSend(s, now, at))
  {
    if !IsBlank(s.input) {
      var m := s.messages;
      var sent := Msg(Decimal(now), s.input, true, at);
      var m' := m + [sent];
      assert m'[1..] == m[1..] + [sent];
      CountAppend(m, sent);
      CountAppend(m[1..], sent);
      assert m[1..|m|] == m[1..] && m[..|m|] == m;
      RepliesFollowSendsAppend(m, sent);
      RecordConditionsAppend(m, sent);
    }
  }

  lemma ReplyPreservesInv(s: State, r: real, now: nat, at: nat)
    requires Inv(s) && s.pending > 0 && 0.0 <= r < 1.0
    ensures Inv(AfterReply(s, r, now, at))
  {
    var m := s.messages;
    var reply := Msg(Decimal(now), ReplyText(r), false, at);
    var m' := m + [reply];
    assert m'[1..] == m[1..] + [reply];
    CountAppend(m, reply);
    CountAppend(m[1..], reply);
    RepliesFollowSendsAppend(m, reply);
    RecordConditionsAppend(m, reply);
  }

  lemma StepPreservesInv(s: State, e: Event)
    requires Inv(s)
    ensures Step(s, e).Some? ==> Inv(Step(s, e).value)
  {
    match e
    case Edit(_) =>
    case Click(now, at) => SendPreservesInv(s, now, at);
    case Key(key, now, at) => SendPreservesInv(s, now, at);
    case Fire(r, now, at) =>
      if s.pending > 0 && 0.0 <= r < 1.0 { ReplyPreservesInv(s, r, now, at); }
  }

  /** Every state the component can reach from mount satisfies `Inv`. */
  lemma {:induction false} RunPreservesInv(s: State, events: seq<Event>)
    requires Inv(s)
    ensures Run(s, events).Some? ==> Inv(Run(s, events).value)
    decreases |events|
  {
    if events != [] {
      StepPreservesInv(s, events[0]);
      if Step(s, events[0]).Some? {
        RunPreservesInv(Step(s, events[0]).value, events[1..]);
      }
    }
  }

  lemma ReachableInv(at: nat, events: seq<Event>)
    ensures Run(Init(at), events).Some? ==> Inv(Run(Init(at), events).value)
  {
    InitInv(at);
    RunPreservesInv(Init(at), events);
  }

  /** In a state satisfying `Inv`, every reply after the welcome record has
      an accepted (non-blank) sender record somewhere before it. */
  lemma ReplyHasEarlierSend(s: State, j: nat)
    requires Inv(s) && 1 <= j < |s.messages| && !s.messages[j].isSender
    ensures exists i :: 0 < i < j && s.messages[i].isSender && !IsBlank(s.messages[i].text)
  {
    var m := s.messages;
    assert m[1..j + 1] == m[1..j] + [m[j]];
    CountAppend(m[1..j], m[j]);
    assert Received(m[1..j + 1]) >= 1;
    assert m[..j + 1] == m[..j] + [m[j]];
    CountAppend(m[..j], m[j]);
    assert Sent(m[..j]) >= 1;
    SomeSenderExists(m[..j]);
    var i :| 0 <= i < j && m[..j][i].isSender;
    assert m[..j][i] == m[i];
  }

  /** A log with a sender record in it names one. */
  lemma {:induction false} SomeSenderExists(log: seq<Msg>)
    requires Sent(log) > 0
    ensures exists i :: 0 <= i < |log| && log[i].isSender
  {
    if !Last(log).isSender {
      var init := log[..|log| - 1];
      SomeSenderExists(init);
      var i :| 0 <= i < |init| && init[i].isSender;
      assert log[i] == init[i];
    }
  }
}

/** Scenarios over whole event sequences. */
module Scenarios {
  import opened Text
  import opened Exchange

  /** Running a non-empty event sequence is its first step and then the rest. */
  lemma RunStep(s: State, events: seq<Event>, t: State)
    requires events != [] && Step(s, events[0]) == Some(t)
    ensures Run(s, events) == Run(t, events[1..])
  {
  }

  /** Whitespace-only input submitted from a fresh chat: the log keeps only
      the welcome record, the input keeps what was typed and no reply is
      scheduled. */
  lemma BlankSubmitIsIgnored(at: nat, now: nat, typed: string)
    requires AllWhitespace(typed)
    ensures Run(Init(at), [Edit(typed), Click(now, at)]) ==
      Some(State(Init(at).messages, typed, 0))
  {
    var s1 := AfterEdit(Init(at), typed);
    var events := [Edit(typed), Click(now, at)];
    RunStep(Init(at), events, s1);
    RunStep(s1, events[1..], s1);
  }

  /** Record ids are `Date.now()` renderings and are not unique: a reply whose
      timer fires in the same millisecond as the next send shares its id. */
  lemma IdsMayCollide(first: string, second: string, t: nat)
    requires !AllWhitespace(first) && !AllWhitespace(second)
    ensures var s := Run(Init(0), [Edit(first), Click(t, t), Edit(second),
                                   Fire(0.0, t + 1000, t + 1000), Click(t + 1000, t + 1000)]);
      s.Some? && |s.value.messages| == 4 &&
      !s.value.messages[2].isSender && s.value.messages[3].isSender &&
      s.value.messages[2].id == s.value.messages[3].id
  {
    var u := t + 1000;
    var events := [Edit(first), Click(t, t), Edit(second), Fire(0.0, u, u), Click(u, u)];
    var s1 := AfterEdit(Init(0), first);
    var s2 := AfterSend(s1, t, t);
    var s3 := AfterEdit(s2, second);
    var s4 := AfterReply(s3, 0.0, u, u);
    var s5 := AfterSend(s4, u, u);
    assert s5.messages == s4.messages + [Msg(Decimal(u), second, true, u)];
    RunStep(s4, events[4..], s5);
    RunStep(s3, events[3..], s4);
    RunStep(s2, events[2..], s3);
    RunStep(s1, events[1..], s2);
    RunStep(Init(0), events, s1);
  }
}
