/** `MessageContainer` (src/MessageContainer.php): a list of messages that
    is appended to and cleared in place. Every mutator returns the same
    instance. Only messages without sprintf-style arguments are modelled. */
module Messages {

  class MessageContainer {
    /** The current messages, oldest first (PHP: `$messages`). */
    var messages: seq<string>

    /** A fresh container holds no messages. */
    constructor ()
      ensures messages == []
      ensures !HasMessages()
    {
      messages := [];
    }

    /** `hasMessages()`: whether there is at least one message. */
    function HasMessages(): (r: bool)
      reads this
      ensures r <==> |messages| > 0
    {
      messages != []
    }

    /** `getMessages()`: the messages in the order they were added. */
    function GetMessages(): (r: seq<string>)
      reads this
      ensures |r| == |messages| && forall i :: 0 <= i < |r| ==> r[i] == messages[i]
    {
      messages
    }

    /** `addMessage(m)` without format arguments: `m` goes to the end and
        the earlier messages stay as they were. */
    method AddMessage(m: string) returns (self: MessageContainer)
      modifies this
      ensures self == this
      ensures messages == old(messages) + [m]
      ensures HasMessages() && messages[|messages| - 1] == m
      ensures messages[..|old(messages)|] == old(messages)
    {
      messages := messages + [m];
      self := this;
    }

    /** `clearMessages()` drops every message. */
    method ClearMessages() returns (self: MessageContainer)
      modifies this
      ensures self == this
      ensures messages == [] && !HasMessages()
    {
      messages := [];
      self := this;
    }

    /** `setMessages(ms)`: clear, then add the given messages one by one, so
        the container ends up holding exactly `ms`, in order. */
    method SetMessages(ms: seq<string>) returns (self: MessageContainer)
      modifies this
      ensures self == this
      ensures messages == ms
      ensures HasMessages() <==> ms != []
    {
      var _ := ClearMessages();
      var i := 0;
      while i < |ms|
        invariant 0 <= i <= |ms|
        invariant messages == ms[..i]
      {
        var _ := AddMessage(ms[i]);
        assert ms[..i + 1] == ms[..i] + [ms[i]];
        i := i + 1;
      }
      assert ms[..|ms|] == ms;
      self := this;
    }
  }

  /** Adding two messages to a fresh container and then clearing it: the
      messages come back in the order they were added, and clearing leaves
      none. */
  method AddThenClearScenario() returns (before: seq<string>, after: seq<string>)
    ensures before == ["Message 1", "Message 2"]
    ensures after == []
  {
    var c := new MessageContainer();
    var _ := c.AddMessage("Message 1");
    var _ := c.AddMessage("Message 2");
    before := c.GetMessages();
    var _ := c.ClearMessages();
    after := c.GetMessages();
  }
}
