/** The `ChatBox` component as an object: its two state cells and the
    outstanding reply timers are fields, and each handler updates them in
    place. Each method is proved to move the fields exactly as the
    corresponding step function of `Exchange` does. */
module ChatBoxComponent {
  import opened Text
  import opened Exchange

  class ChatBox {
    /** The `messages` state cell: the conversation log. */
    var messages: seq<Msg>
    /** The `inputMessage` state cell: the text in the input field. */
    var input: string
    /** Reply timers started by a send and not yet run. */
    var pending: nat

    function Snapshot(): State
      reads this
    {
      State(messages, input, pending)
    }

    ghost predicate Valid()
      reads this
    {
      Inv(Snapshot())
    }

    /** Mounting the component; `at` is the time `new Date()` reads for the
        welcome record. */
    constructor (at: nat)
      ensures Valid() && Snapshot() == Init(at)
      ensures |messages| == 1 && messages[0].id == "1" && !messages[0].isSender
      ensures messages[0].text == WelcomeText && input == "" && pending == 0
    {
      messages := [Msg(WelcomeId, WelcomeText, false, at)];
      input := "";
      pending := 0;
      InitInv(at);
    }

    /** The input's onChange handler. */
    method ChangeInput(value: string)
      requires Valid()
      modifies this
      ensures Valid() && Snapshot() == AfterEdit(old(Snapshot()), value)
      ensures input == value && messages == old(messages) && pending == old(pending)
    {
      input := value;
    }

    /** `handleSendMessage`: `now` is the `Date.now()` reading that becomes the
        id, `at` the `new Date()` timestamp. */
    method Send(now: nat, at: nat)
      requires Valid()
      modifies this
      ensures Valid() && Snapshot() == AfterSend(old(Snapshot()), now, at)
      ensures IsBlank(old(input)) ==>
        messages == old(messages) && input == old(input) && pending == old(pending)
      ensures !IsBlank(old(input)) ==>
        messages == old(messages) + [Msg(Decimal(now), old(input), true, at)] &&
        input == "" && pending == old(pending) + 1
    {
      SendPreservesInv(Snapshot(), now, at);
      if Trim(input) == "" {
        return;
      }
      var sent := Msg(Decimal(now), input, true, at);
      messages := messages + [sent];
      input := "";
      pending := pending + 1;
    }

    /** One reply timer runs: `r` is the value `Math.random()` returned,
        `now` and `at` the clock readings for the reply record. */
    method DeliverReply(r: real, now: nat, at: nat)
      requires Valid() && pending > 0 && 0.0 <= r < 1.0
      modifies this
      ensures Valid() && Snapshot() == AfterReply(old(Snapshot()), r, now, at)
      ensures messages == old(messages) + [Msg(Decimal(now), ReplyText(r), false, at)]
      ensures input == old(input) && pending == old(pending) - 1
    {
      ReplyPreservesInv(Snapshot(), r, now, at);
      var reply := Msg(Decimal(now), ReplyText(r), false, at);
      messages := messages + [reply];
      pending := pending - 1;
    }

    /** `handleKeyDown`: Enter runs the send handler, other keys do nothing. */
    method KeyDown(key: string, now: nat, at: nat)
      requires Valid()
      modifies this
      ensures Valid() && Snapshot() == AfterKeyDown(old(Snapshot()), key, now, at)
      ensures key != "Enter" ==>
        messages == old(messages) && input == old(input) && pending == old(pending)
    {
      if key == "Enter" {
        Send(now, at);
      }
    }
  }
}
