/** Message components shared by the services: buttons and their styles. */
module Components {

  /** The `ButtonStyle`s the bot uses. */
  datatype ButtonStyle = Primary | Success | Danger

  /** A message button: its caption, colour, the custom id it reports when pressed, and whether it is greyed out. */
  datatype Button = Button(caption: string, style: ButtonStyle, customId: string, disabled: bool)
}
