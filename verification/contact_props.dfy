/** Properties of the contact endpoint that relate several calls. */
module ContactProps {
  import opened Wrappers
  import opened Text
  import opened Contact

  /** The name can be read back from the subject line it was put into. */
  lemma SubjectRoundTrip(name: string)
    ensures NameOfSubject(Subject(name)) == Some(name)
  {
  }

  /** Every subject line from which a name is read back is the subject for that name. */
  lemma SubjectFromName(subject: string, name: string)
    requires NameOfSubject(subject) == Some(name)
    ensures Subject(name) == subject
  {
  }

  /** Two different names never share a subject line. */
  lemma SubjectInjective(a: string, b: string)
    requires Subject(a) == Subject(b)
    ensures a == b
  {
  }

  /** Validation does not trim: fields made only of whitespace pass and the mail is handed off. */
  lemma NoTrimming(name: string, email: string, message: string, send: SendResult)
    requires |name| > 0 && |email| > 0 && |message| > 0
    requires forall k :: 0 <= k < |name| ==> IsWs(name[k])
    requires forall k :: 0 <= k < |email| ==> IsWs(email[k])
    requires forall k :: 0 <= k < |message| ==> IsWs(message[k])
    ensures HandlePost(Some(Submission(Some(name), Some(email), Some(message))), send).handedOff
      == Some(ComposeMail(name, email, message))
  {
  }

  /** An empty or missing field is refused with 400 before any send, whatever the transport would say. */
  lemma EmptyFieldRejected(sub: Submission, send: SendResult)
    requires sub.name == Some([]) || sub.email.None? || sub.message == Some([])
    ensures HandlePost(Some(sub), send) == Outcome(None, Response(400, Error(RequiredText)))
  {
  }

  /** A failed send is never reported as a success: it gives 500 with the failure text. */
  lemma FailedSendNeverAcknowledged(request: Option<Submission>)
    ensures HandlePost(request, Failed).response.status != 200
    ensures HandlePost(request, Failed).response.body.Error?
  {
  }

  /** The outcome depends on the transport only when a mail was handed to it. */
  lemma TransportConsultedOnlyWhenSending(request: Option<Submission>)
    requires HandlePost(request, Sent).handedOff.None?
    ensures HandlePost(request, Sent) == HandlePost(request, Failed)
  {
  }

  /** A valid submission with a successful send: one mail handed off, its subject carrying the name, status 200. */
  lemma AcceptsExample()
    ensures var o := HandlePost(Some(Submission(Some("Taro"), Some("a@b.com"), Some("hello"))), Sent);
      && o.response == Response(200, Ack(DeliveredText))
      && o.handedOff.Some?
      && OccursAt(o.handedOff.value.subject, "Taro", |SubjectPrefix|)
      && o.handedOff.value.to == Owner
  {
  }
}
