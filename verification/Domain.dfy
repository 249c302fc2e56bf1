/** Values shared by the tables. */
module Domain {
  datatype Portal = Pisoscom | Habitaclia | Fotocasa | Yaencontre | Idealista | IdealistaProxy

  datatype RunStatus = Success | Empty | Timeout | TransportError | ParserError | Blocked | Unavailable {
    /** Only a conclusive attempt says anything about what was not seen. */
    predicate Conclusive() { Success? || Empty? }
  }
}
