/**
 The contact endpoint (`POST /api/contact`): it checks that a submission carries a
 name, an e-mail address and a message, composes a notification mail to the site
 owner, hands it to the mail transport and reports the outcome. The transport is
 not modelled; its answer to the one send is an input.
 */
module Contact {
  import opened Wrappers
  import opened Text

  /** The owner's address: the mail is sent from it and to it. */
  const Owner: string := "mrt.t0304@gmail.com"
  const Sender: string := "\"ポートフォリオサイト\" <" + Owner + ">"
  /** "Inquiry from the portfolio site - ", then the name, then "-sama yori" (from Mr./Ms. …). */
  const SubjectPrefix: string := "ポートフォリオサイトからのお問い合わせ - "
  const SubjectSuffix: string := "様より"

  const RequiredText: string := "お名前、メールアドレス、メッセージは必須です"
  const DeliveredText: string := "メッセージが送信されました"
  const SendFailedText: string := "メッセージの送信に失敗しました"

  /** Field labels of the plain-text body ("name", "e-mail address", "message"). */
  const NameLabel: string := "名前: "
  const EmailLabel: string := "メールアドレス: "
  const MessageLabel: string := "メッセージ:\n"

  /** Fixed pieces of the HTML body. */
  const HtmlOpen: string :=
    "\n<div style=\"font-family: sans-serif; max-width: 600px; margin: 0 auto;\">\n  <h2 style=\"color: #6366f1; border-bottom: 1px solid #e2e8f0; padding-bottom: 10px;\">ポートフォリオサイトからのお問い合わせ</h2>\n  <p>"
  const HtmlNameLabel: string := "<strong>名前:</strong> "
  const HtmlEmailLabel: string := "<strong>メールアドレス:</strong> "
  const HtmlMessageHeading: string :=
    "\n  <div style=\"margin-top: 20px;\">\n    <strong>メッセージ:</strong>\n    "
  const HtmlMessageOpen: string :=
    "<p style=\"white-space: pre-wrap; background-color: #f8fafc; padding: 15px; border-radius: 5px;\">"
  const HtmlClose: string :=
    "\n  </div>\n  <p style=\"color: #94a3b8; font-size: 12px; margin-top: 30px;\">このメールはポートフォリオサイトのお問い合わせフォームから自動送信されました。</p>\n</div>\n      "

  /** The JSON body's three fields, each possibly missing. */
  datatype Submission = Submission(name: Option<string>, email: Option<string>, message: Option<string>)

  datatype Mail = Mail(from: string, to: string, subject: string, text: string, html: string)

  /** What the transport reports for the one send: delivered, or it threw. */
  datatype SendResult = Sent | Failed

  datatype Body = Ack(message: string) | Error(error: string)
  datatype Response = Response(status: nat, body: Body)

  /** The response, and the mail handed to the transport if a send was attempted. */
  datatype Outcome = Outcome(handedOff: Option<Mail>, response: Response)

  /** `!name || !email || !message` is false: no field is missing or empty. */
  function Valid(sub: Submission): (b: bool)
    ensures !b <==> None in [sub.name, sub.email, sub.message] || Some([]) in [sub.name, sub.email, sub.message]
  {
    Truthy(sub.name) && Truthy(sub.email) && Truthy(sub.message)
  }

  /** `a`, `b` and `c` occur in `s` verbatim, one after another, without overlapping. */
  ghost predicate FieldsInOrder(s: string, a: string, b: string, c: string) {
    exists k1, k2, k3 ::
      && OccursAt(s, a, k1) && OccursAt(s, b, k2) && OccursAt(s, c, k3)
      && k1 + |a| <= k2 && k2 + |b| <= k3
  }

  /** Any text of the shape `p0 a p1 b p2 c p3` holds `a`, `b`, `c` in order. */
  lemma FieldsInOrderOfLayout(p0: string, a: string, p1: string, b: string, p2: string, c: string, p3: string)
    ensures FieldsInOrder(p0 + a + p1 + b + p2 + c + p3, a, b, c)
  {
    var s := p0 + a + p1 + b + p2 + c + p3;
    var k1 := |p0|;
    var k2 := k1 + |a| + |p1|;
    var k3 := k2 + |b| + |p2|;
    assert s[k1..k1 + |a|] == a;
    assert s[k2..k2 + |b|] == b;
    assert s[k3..k3 + |c|] == c;
    assert OccursAt(s, a, k1) && OccursAt(s, b, k2) && OccursAt(s, c, k3);
  }

  /** The subject line: the fixed prefix, the sender's name, the fixed suffix. */
  function Subject(name: string): (r: string)
    ensures OccursAt(r, name, |SubjectPrefix|)
    ensures r[..|SubjectPrefix|] == SubjectPrefix
    ensures IsSuffix(SubjectSuffix, r)
    ensures |r| == |SubjectPrefix| + |name| + |SubjectSuffix|
  {
    SubjectPrefix + name + SubjectSuffix
  }

  /** Reads the name back out of a subject line, if it has the fixed frame. */
  function NameOfSubject(subject: string): (r: Option<string>)
    ensures r.Some? ==> |r.value| + |SubjectPrefix| + |SubjectSuffix| == |subject|
  {
    if |subject| >= |SubjectPrefix| + |SubjectSuffix|
      && subject[..|SubjectPrefix|] == SubjectPrefix
      && subject[|subject| - |SubjectSuffix|..] == SubjectSuffix
    then Some(subject[|SubjectPrefix|..|subject| - |SubjectSuffix|])
    else None
  }

  /** The plain-text body: each value after its label, one field per line. */
  function TextBody(name: string, email: string, message: string): (r: string)
    ensures FieldsInOrder(r, NameLabel + name, EmailLabel + email, MessageLabel + message)
  {
    FieldsInOrderOfLayout("\n", NameLabel + name, "\n", EmailLabel + email, "\n\n", MessageLabel + message, "\n      ");
    "\n" + (NameLabel + name) + "\n" + (EmailLabel + email) + "\n\n" + (MessageLabel + message) + "\n      "
  }

  /** The HTML body: the same three values, inserted as they are, with no HTML escaping. */
  function HtmlBody(name: string, email: string, message: string): (r: string)
    ensures FieldsInOrder(r, HtmlNameLabel + name + "</p>", HtmlEmailLabel + email + "</p>", HtmlMessageOpen + message + "</p>")
  {
    FieldsInOrderOfLayout(
      HtmlOpen, HtmlNameLabel + name + "</p>", "\n  <p>", HtmlEmailLabel + email + "</p>",
      HtmlMessageHeading, HtmlMessageOpen + message + "</p>", HtmlClose);
    HtmlOpen + (HtmlNameLabel + name + "</p>") + "\n  <p>" + (HtmlEmailLabel + email + "</p>")
      + HtmlMessageHeading + (HtmlMessageOpen + message + "</p>") + HtmlClose
  }

  /** The notification mail for a submission. */
  function ComposeMail(name: string, email: string, message: string): (m: Mail)
    ensures m.from == Sender && m.to == Owner
    ensures NameOfSubject(m.subject) == Some(name)
    ensures FieldsInOrder(m.text, NameLabel + name, EmailLabel + email, MessageLabel + message)
    ensures FieldsInOrder(m.html, HtmlNameLabel + name + "</p>", HtmlEmailLabel + email + "</p>", HtmlMessageOpen + message + "</p>")
  {
    var subject := Subject(name);
    assert subject[|SubjectPrefix|..|subject| - |SubjectSuffix|] == name;
    Mail(Sender, Owner, subject, TextBody(name, email, message), HtmlBody(name, email, message))
  }

  /**
   The endpoint. `request` is the parsed JSON body, `None` when `request.json()`
   throws; `send` is what the transport reports if it is called.
   */
  function HandlePost(request: Option<Submission>, send: SendResult): (o: Outcome)
    ensures request.None? ==> o == Outcome(None, Response(500, Error(SendFailedText)))
    ensures request.Some? && !Valid(request.value) ==>
      o == Outcome(None, Response(400, Error(RequiredText)))
    ensures request.Some? && Valid(request.value) ==>
      && o.handedOff == Some(ComposeMail(request.value.name.value, request.value.email.value, request.value.message.value))
      && o.response == (if send == Sent then Response(200, Ack(DeliveredText)) else Response(500, Error(SendFailedText)))
    ensures o.response.status in {200, 400, 500}
    ensures o.response.status == 200 <==> o.handedOff.Some? && send == Sent
  {
    match request
    case None => Outcome(None, Response(500, Error(SendFailedText)))
    case Some(sub) =>
      if !Valid(sub) then Outcome(None, Response(400, Error(RequiredText)))
      else
        var mail := ComposeMail(sub.name.value, sub.email.value, sub.message.value);
        match send
        case Sent => Outcome(Some(mail), Response(200, Ack(DeliveredText)))
        case Failed => Outcome(Some(mail), Response(500, Error(SendFailedText)))
  }
}
