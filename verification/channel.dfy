/** What the bot sends to the chat channel. A turn's side effects are modelled
    as the ordered trace of these messages. */
module Channel {

  /** One element of an adaptive card's body. */
  datatype CardElement =
    | TextBlock(text: string, size: string)
    | Image(url: string)

  /** The JSON object `{ type = "AdaptiveCard", version, body }`. */
  datatype AdaptiveCard = AdaptiveCard(cardType: string, version: string, body: seq<CardElement>)

  /** A suggested quick-reply action (`CardAction`). */
  datatype CardAction = CardAction(actionType: string, value: string)

  datatype Message =
    | TextMessage(text: string)                                    // SendActivityAsync(string)
    | AttachmentMessage(contentType: string, card: AdaptiveCard)   // MessageFactory.Attachment
    | SuggestionMessage(text: string, actions: seq<CardAction>)    // message activity with SuggestedActions

  const AdaptiveCardContentType := "application/vnd.microsoft.card.adaptive"
  const PostBack := "postBack"
}
