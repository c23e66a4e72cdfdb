/** The chat view: the message list, each message shown as sent or
    received, and the input box whose text is handed to the parent on Send
    or Enter unless it is blank. */
module Chat {
  import Text

  /** A chat message; its timestamp only feeds the locale time label. */
  datatype Message = Message(id: string, senderId: string, text: string)

  /** Which side of the conversation a bubble is drawn on. */
  datatype Side = Sent | Received

  /** A message is drawn as sent exactly when the current user wrote it. */
  function Classify(m: Message, currentUserId: string): (s: Side)
    ensures s == Sent <==> m.senderId == currentUserId
    ensures s == Received <==> m.senderId != currentUserId
  {
    if m.senderId == currentUserId then Sent else Received
  }

  /** The sides of a whole conversation, one per message, in order. */
  function Sides(messages: seq<Message>, currentUserId: string): (r: seq<Side>)
    ensures |r| == |messages|
    ensures forall i :: 0 <= i < |r| ==> (r[i] == Sent <==> messages[i].senderId == currentUserId)
  {
    seq(|messages|, i requires 0 <= i < |messages| => Classify(messages[i], currentUserId))
  }

  /** No blank text was ever handed to the parent. */
  predicate NoneBlank(texts: seq<string>) {
    forall i :: 0 <= i < |texts| ==> !Text.IsBlank(texts[i])
  }

  /** The input box's text, and the texts passed to `onSendMessage`, in
      order. */
  class ChatView {
    var messageText: string
    var sent: seq<string>

    constructor ()
      ensures messageText == "" && sent == []
    {
      messageText := "";
      sent := [];
    }

    /** Typing replaces the text. */
    method SetText(value: string)
      modifies this
      ensures messageText == value && sent == old(sent)
    {
      messageText := value;
    }

    /** The Send button is disabled exactly when the text holds nothing but
        whitespace. */
    function SendDisabled(): (disabled: bool)
      reads this
      ensures disabled <==> forall i :: 0 <= i < |messageText| ==> Text.IsJsWhitespace(messageText[i])
    {
      Text.IsBlank(messageText)
    }

    /** Send: a text with something besides whitespace is handed over as
        typed, untrimmed, and the box is cleared; a blank text is neither
        sent nor cleared. */
    method HandleSend()
      modifies this
      ensures !Text.IsBlank(old(messageText)) ==> sent == old(sent) + [old(messageText)] && messageText == ""
      ensures Text.IsBlank(old(messageText)) ==> sent == old(sent) && messageText == old(messageText)
      ensures NoneBlank(old(sent)) ==> NoneBlank(sent)
    {
      if !Text.IsBlank(messageText) {
        sent := sent + [messageText];
        messageText := "";
      }
    }

    /** A key press: Enter without Shift is taken over (the newline is
        prevented) and sends; any other key does nothing here. */
    method HandleKeyPress(key: string, shiftKey: bool) returns (prevented: bool)
      modifies this
      ensures prevented <==> key == "Enter" && !shiftKey
      ensures prevented && !Text.IsBlank(old(messageText)) ==> sent == old(sent) + [old(messageText)] && messageText == ""
      ensures !(prevented && !Text.IsBlank(old(messageText))) ==> sent == old(sent) && messageText == old(messageText)
      ensures NoneBlank(old(sent)) ==> NoneBlank(sent)
    {
      prevented := false;
      if key == "Enter" && !shiftKey {
        prevented := true;
        HandleSend();
      }
    }
  }
}
