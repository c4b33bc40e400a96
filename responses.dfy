/** What a request handler produces once the HTTP layer is set aside: a status
    code with its JSON body, and the message handed to the mail transport, if
    the handler got that far. CORS headers and logging are not modelled. */
module Responses {
  import opened JsValues
  import opened MailService

  /** `{ success, message, errors? }` */
  datatype Reply = Reply(success: bool, message: string, errors: Option<seq<string>>)

  /** A status code and the body; the reply to OPTIONS has no body. */
  datatype Response = Response(status: int, body: Option<Reply>)

  datatype Handled = Handled(response: Response, handed: Option<MailOptions>)

  const MethodNotAllowed := "Méthode non autorisée. Utilisez POST."
  const NotAnObject := "Données invalides. Un objet JSON est attendu."
  const ValidationFailed := "Erreurs de validation"

  /** The answer to a CORS preflight request. */
  const Preflight := Handled(Response(200, None), None)

  /** The answer to any method other than POST and OPTIONS. */
  const WrongMethod := Handled(Response(405, Some(Reply(false, MethodNotAllowed, None))), None)

  /** The answer to a body that is not an object. */
  const BadBody := Handled(Response(400, Some(Reply(false, NotAnObject, None))), None)

  /** The answer to a submission that failed validation: the errors, verbatim. */
  function Rejected(errors: seq<string>): Handled {
    Handled(Response(400, Some(Reply(false, ValidationFailed, Some(errors)))), None)
  }

  /** The answer when something threw: a fixed message and no detail. */
  function Failed(message: string, handed: Option<MailOptions>): Handled {
    Handled(Response(500, Some(Reply(false, message, None))), handed)
  }

  function Succeeded(message: string, handed: Option<MailOptions>): Handled {
    Handled(Response(200, Some(Reply(true, message, None))), handed)
  }
}
