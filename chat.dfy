/** The canned stylist chat (src/components/ChatInterface.tsx): the keyword
    responder, the fixed follow-up suggestions, and the message log. */
module Chat {
  import opened Wrappers
  import Text

  datatype Sender = User | Assistant

  /** A chat entry; `timestamp` is the clock reading given by the caller. */
  datatype Message = Message(
    id: string,
    sender: Sender,
    content: string,
    timestamp: string,
    suggestions: Option<seq<string>>)

  /** The four replies the responder can give. */
  datatype Topic = Business | Casual | Weather | General

  const BusinessReply: string := "For a business meeting, I'd recommend your Classic White Blouse paired with dark tailored pants or a blazer. This creates a professional, polished look that's perfect for important meetings. The white blouse is versatile and always looks crisp and confident."
  const CasualReply: string := "For a casual weekend look, try your Dark Wash Jeans with a comfortable top. You could layer with a cardigan or light jacket depending on the weather. This combination is both stylish and comfortable for errands, coffee dates, or relaxing at home."
  const WeatherReply: string := "For rainy weather, choose darker colors that won't show water spots as easily. I'd suggest waterproof footwear and a light jacket that you can easily layer. Your darker pieces would work well - they're practical and still stylish for gloomy days."
  const GeneralReply: string := "I'd be happy to help you create the perfect outfit! Based on your wardrobe, I can suggest several great combinations. Could you tell me more about the occasion or your style preferences for today?"

  const WelcomeText: string := "Hi! I'm your AI stylist assistant. I can help you create outfits, suggest combinations, or answer questions about your wardrobe. What would you like to explore today?"
  const WelcomeSuggestions: seq<string> := [
    "What should I wear to a business meeting?",
    "Create a casual weekend outfit",
    "Show me outfits for rainy weather",
    "What goes well with my white blouse?"]
  const FollowUps: seq<string> := [
    "Show me similar outfits",
    "What accessories would work?",
    "Suggest color combinations",
    "Create another option"]

  /** The message mentions one of two keywords, ignoring ASCII case. */
  predicate Mentions(message: string, a: string, b: string) {
    Text.Contains(Text.ToLower(message), a) || Text.Contains(Text.ToLower(message), b)
  }

  /** The keyword classes, checked in priority order. */
  function Classify(message: string): (t: Topic)
    ensures t == Business <==> Mentions(message, "business", "meeting")
    ensures t == Casual <==> !Mentions(message, "business", "meeting") && Mentions(message, "casual", "weekend")
    ensures t == Weather <==> !Mentions(message, "business", "meeting") && !Mentions(message, "casual", "weekend")
                              && Mentions(message, "rainy", "weather")
    ensures t == General <==> !Mentions(message, "business", "meeting") && !Mentions(message, "casual", "weekend")
                              && !Mentions(message, "rainy", "weather")
  {
    if Mentions(message, "business", "meeting") then Business
    else if Mentions(message, "casual", "weekend") then Casual
    else if Mentions(message, "rainy", "weather") then Weather
    else General
  }

  function ReplyText(t: Topic): string {
    match t
    case Business => BusinessReply
    case Casual => CasualReply
    case Weather => WeatherReply
    case General => GeneralReply
  }

  /** generateMockResponse: the reply of the first keyword pair the message
      mentions, in priority order, or the general reply. */
  function Respond(message: string): (r: string)
    ensures Mentions(message, "business", "meeting") ==> r == BusinessReply
    ensures !Mentions(message, "business", "meeting") && Mentions(message, "casual", "weekend") ==> r == CasualReply
    ensures (!Mentions(message, "business", "meeting") && !Mentions(message, "casual", "weekend")
             && Mentions(message, "rainy", "weather")) ==> r == WeatherReply
    ensures (!Mentions(message, "business", "meeting") && !Mentions(message, "casual", "weekend")
             && !Mentions(message, "rainy", "weather")) ==> r == GeneralReply
  {
    ReplyText(Classify(message))
  }

  /** The responder ignores ASCII case. */
  lemma RespondIgnoresCase(message: string)
    ensures Respond(Text.ToLower(message)) == Respond(message)
  {
    Text.ToLowerIdempotent(message);
  }

  /** A keyword in capitals still selects its reply. */
  lemma UpperCaseKeyword(message: string)
    requires Text.Contains(message, "MEETING")
    ensures Respond(message) == BusinessReply
  {
    Text.ContainsToLower(message, "MEETING");
    assert Text.ToLower("MEETING") == "meeting";
  }

  /** generateSuggestions: the same four follow-ups for every message. */
  function Suggestions(message: string): (r: seq<string>)
    ensures |r| == 4
  {
    FollowUps
  }

  lemma SuggestionsIgnoreMessage(a: string, b: string)
    ensures Suggestions(a) == Suggestions(b)
  {
  }

  /** The chat's state. `pending` holds, oldest first, the raw contents whose
      replies are still scheduled. */
  class ChatLog {
    var messages: seq<Message>
    var inputValue: string
    var isLoading: bool
    var pending: seq<string>

    constructor (now: string)
      ensures messages == [Message("1", Assistant, WelcomeText, now, Some(WelcomeSuggestions))]
      ensures inputValue == "" && !isLoading && pending == []
    {
      messages := [Message("1", Assistant, WelcomeText, now, Some(WelcomeSuggestions))];
      inputValue := "";
      isLoading := false;
      pending := [];
    }

    /** handleSendMessage up to the scheduled reply. `id` and `now` are the
        clock readings the handler takes. Whitespace-only content is ignored;
        otherwise the trimmed content is appended as the user's message. */
    method SendMessage(content: string, id: string, now: string) returns (accepted: bool)
      modifies this
      ensures accepted <==> Text.Trim(content) != ""
      ensures !accepted ==> messages == old(messages) && inputValue == old(inputValue)
                            && isLoading == old(isLoading) && pending == old(pending)
      ensures accepted ==> messages == old(messages) + [Message(id, User, Text.Trim(content), now, None)]
                           && inputValue == "" && isLoading && pending == old(pending) + [content]
    {
      var trimmed := Text.Trim(content);
      if trimmed == "" {
        return false;
      }
      messages := messages + [Message(id, User, trimmed, now, None)];
      inputValue := "";
      isLoading := true;
      pending := pending + [content];
      accepted := true;
    }

    /** The scheduled reply fires for the oldest pending content: the reply
        is computed from the content as typed, untrimmed. */
    method DeliverReply(id: string, now: string)
      requires |pending| > 0
      modifies this
      ensures messages == old(messages)
        + [Message(id, Assistant, Respond(old(pending)[0]), now, Some(Suggestions(old(pending)[0])))]
      ensures pending == old(pending)[1..] && !isLoading && inputValue == old(inputValue)
    {
      var content := pending[0];
      messages := messages + [Message(id, Assistant, Respond(content), now, Some(Suggestions(content)))];
      pending := pending[1..];
      isLoading := false;
    }
  }
}
