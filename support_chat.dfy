/** The stand-alone support chat page (src/pages/ChatInterface.tsx): a message list that
    starts with a welcome message, a guarded send that appends the user's message, and a
    canned reply chosen by keywords, appended when the simulated delay has passed. */
module SupportChat {
  import opened Wrappers
  import opened Text

  const BatteryReply := "I understand you're having battery issues. Let me help you troubleshoot this. First, have you tried charging your scooter for at least 4-6 hours using the original charger?"
  const BrakeReply := "Brake issues are important for safety. Can you describe what exactly is happening with the brakes? Are they too loose, too tight, or making unusual sounds?"
  const SpeedReply := "If your scooter is running slower than usual, this could be related to battery level, tire pressure, or the speed controller. What's the current battery level showing on your display?"
  const ChargingReply := "For charging issues, please check: 1) The charging port is clean and dry 2) The charger LED indicator 3) Try a different power outlet. What symptoms are you experiencing exactly?"
  const DefaultReply := "Thank you for contacting MotoRise support. I'm here to help with any issues you're experiencing with your electric scooter. Could you please provide more details about the problem?"

  /** `getSupportResponse`: the first keyword group the lower-cased message contains picks
      the reply; the order of the tests decides between groups. */
  function SupportResponse(text: string): (r: string)
    ensures r == BatteryReply <==> Contains(Lower(text), "battery")
    ensures r == BrakeReply <==> !Contains(Lower(text), "battery") && Contains(Lower(text), "brake")
    ensures r == SpeedReply <==>
      && !Contains(Lower(text), "battery") && !Contains(Lower(text), "brake")
      && (Contains(Lower(text), "speed") || Contains(Lower(text), "slow"))
    ensures r == ChargingReply <==>
      && !Contains(Lower(text), "battery") && !Contains(Lower(text), "brake")
      && !Contains(Lower(text), "speed") && !Contains(Lower(text), "slow")
      && (Contains(Lower(text), "charge") || Contains(Lower(text), "charging"))
    ensures r == DefaultReply <==>
      && !Contains(Lower(text), "battery") && !Contains(Lower(text), "brake")
      && !Contains(Lower(text), "speed") && !Contains(Lower(text), "slow")
      && !Contains(Lower(text), "charge") && !Contains(Lower(text), "charging")
  {
    RepliesDistinct();
    var message := Lower(text);
    if Contains(message, "battery") then BatteryReply
    else if Contains(message, "brake") then BrakeReply
    else if Contains(message, "speed") || Contains(message, "slow") then SpeedReply
    else if Contains(message, "charge") || Contains(message, "charging") then ChargingReply
    else DefaultReply
  }

  /** The five canned replies are different texts, so the reply tells which group fired. */
  lemma RepliesDistinct()
    ensures |BatteryReply| == 172 && |BrakeReply| == 155 && |SpeedReply| == 183
    ensures |ChargingReply| == 178 && |DefaultReply| == 180
  {
  }

  /** The reply does not depend on letter case. */
  lemma SupportResponseIgnoresCase(text: string)
    ensures SupportResponse(Lower(text)) == SupportResponse(text)
  {
    LowerIdempotent(text);
  }

  datatype Sender = UserSender | Support

  datatype DeliveryStatus = Sent | Delivered | Read

  /** A chat bubble; its timestamp is left out. */
  datatype Message = Message(id: string, text: string, sender: Sender, status: Option<DeliveryStatus>)

  const Welcome := Message("1", "Hello! Welcome to MotoRise Support. How can I help you today?", Support, Some(Read))

  class ChatWindow {
    var messages: seq<Message>
    var newMessage: string
    var isTyping: bool

    constructor ()
      ensures messages == [Welcome] && newMessage == "" && !isTyping
    {
      messages := [Welcome];
      newMessage := "";
      isTyping := false;
    }

    /** The input's change handler. */
    method SetNewMessage(value: string)
      modifies this`newMessage
      ensures newMessage == value
    {
      newMessage := value;
    }

    /** `handleSendMessage`: a blank input is ignored; otherwise the input, untrimmed, is
        appended as a sent user message with the given id, the input is cleared and the
        support side starts typing. The result is the text the delayed reply answers. */
    method HandleSendMessage(id: string) returns (pending: Option<string>)
      modifies this
      ensures pending.None? <==> IsBlank(old(newMessage))
      ensures pending.None? ==> messages == old(messages) && newMessage == old(newMessage) && isTyping == old(isTyping)
      ensures pending.Some? ==> pending.value == old(newMessage)
      ensures pending.Some? ==>
        && messages == old(messages) + [Message(id, old(newMessage), UserSender, Some(Sent))]
        && newMessage == "" && isTyping
    {
      if Trim(newMessage) == [] {
        return None;
      }
      var text := newMessage;
      messages := messages + [Message(id, text, UserSender, Some(Sent))];
      newMessage := "";
      isTyping := true;
      return Some(text);
    }

    /** The timer's callback: the reply to the text that was sent is appended as a read
        support message and typing stops. */
    method DeliverSupportReply(sentText: string, id: string)
      modifies this`messages, this`isTyping
      ensures messages == old(messages) + [Message(id, SupportResponse(sentText), Support, Some(Read))]
      ensures !isTyping
    {
      messages := messages + [Message(id, SupportResponse(sentText), Support, Some(Read))];
      isTyping := false;
    }
  }
}
