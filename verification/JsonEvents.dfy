/** The events of the streaming JSON parser. */
module JsonEvents {

  /** What the JSON parser reports. Null and boolean values have no handler. */
  datatype Event =
    | StartObject | EndObject | StartArray | EndArray
    | Member(name: string)
    | Text(text: string)
    | Number(digits: string)
    | Unhandled
}
