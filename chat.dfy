/** The chat platform's identifiers, as the bot's modules see them. */
module Chat {

  /** A user, channel or thread identifier (a Discord snowflake, kept as its decimal string). */
  type Id = string

  /** A channel a message arrives in; a thread knows the channel it hangs off. */
  datatype Channel = TextChannel(id: Id) | Thread(id: Id, parentId: Id)
}
