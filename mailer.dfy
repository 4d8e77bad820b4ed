/** The contract of `sendEmail`: it reports every outcome in its return
    value and never throws. The transport (nodemailer and the SMTP server)
    is the collaborator whose behaviour is passed in. */
module Mailer {
  import opened Wrappers

  /** What the transport does with one message. */
  datatype Transport =
    | NotConfigured                  // EMAIL_USER or EMAIL_PASS unset
    | Delivered(messageId: string)   // `sendMail` resolved
    | TransportError(message: string) // `sendMail` threw

  /** The object `sendEmail` resolves to; `error` is present only when the
      transport threw. */
  datatype MailResult = MailResult(messageId: string, error: Option<string>)

  function SendEmail(t: Transport): (r: MailResult)
    ensures t.NotConfigured? ==> r == MailResult("skipped", None)
    ensures t.Delivered? ==> r == MailResult(t.messageId, None)
    ensures t.TransportError? ==> r == MailResult("failed", Some(t.message))
  {
    match t
    case NotConfigured => MailResult("skipped", None)
    case Delivered(id) => MailResult(id, None)
    case TransportError(m) => MailResult("failed", Some(m))
  }

  /** An `await sendEmail(...)` as its caller sees it, inside a `try`. */
  datatype Attempt = Returned(result: MailResult) | Threw(message: string)

  function AwaitSendEmail(t: Transport): (a: Attempt)
    ensures a.Returned? && a.result == SendEmail(t)
  {
    Returned(SendEmail(t))
  }
}
