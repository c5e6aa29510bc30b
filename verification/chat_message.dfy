/** A chat message (`ChatMessage`, `Role`).  The random id and the clock
    reading the app fills in by default are given by the caller. */
module ChatMessages {

  datatype Role = User | Assistant

  datatype ChatMessage = ChatMessage(id: string, role: Role, content: string, timestamp: int)
}
