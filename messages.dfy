/** The flash messages that the validators and the request handlers collect:
    Python tuples ("danger", text) and ("success", text). */
module Messages {

  datatype Category = Danger | Success

  datatype Message = Message(category: Category, text: string)

  function Error(text: string): Message
  {
    Message(Danger, text)
  }

  /** The "<field> is required." message shared by the contact-form check and
      the activity form. */
  function Required(fieldName: string): Message
  {
    Error(fieldName + " is required.")
  }

  predicate AllErrors(ms: seq<Message>)
  {
    forall i :: 0 <= i < |ms| ==> ms[i].category == Danger
  }

  /** The `messages` list a handler creates and passes to the validators,
      which append to it in place. */
  class MessageLog {
    var entries: seq<Message>

    constructor ()
      ensures entries == []
    {
      entries := [];
    }

    method Append(m: Message)
      modifies this
      ensures entries == old(entries) + [m]
    {
      entries := entries + [m];
    }
  }
}
