/** The agent-framework types both hosted agents share. */
module Framework {

  /** The roles a framework message can carry. */
  datatype Role = User | Assistant | System | Tool

  /** An opaque handle on a conversation thread supplied by the hosting platform. */
  datatype ThreadHandle = ThreadHandle(id: string)
}
