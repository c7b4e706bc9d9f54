/** The events the XML pull parser hands to the gateway. The tokenizer
    itself is not modelled: a well-formed document is given as the sequence
    of events it produces. A parse error in a SOAP response is a failure of
    the round trip. A device description is given as the events before its
    first parse error, which gives the outcome of the exception: a service
    committed before the error is returned before the parser reaches it,
    and otherwise the walk fails. */
module Xml {

  datatype Event =
    | StartTag(name: string)
    | Text(text: string)
    | EndTag(name: string)
}
