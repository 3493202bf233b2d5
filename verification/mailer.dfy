/** `send_email`: one outbound message per recipient, each carrying the
    dataset as a CSV attachment, sent over its own SMTP session. */
module Mailer {
  import opened Base
  import opened Sandbox

  datatype Attachment = Attachment(fileName: string, mainType: string, subType: string, content: Bytes)

  datatype Outbound = Outbound(from: string, to: string, subject: string, text: string, attachment: Attachment)

  const Subject := "Processed DataFrame"
  const BodyText := "Attached is the processed file."
  const AttachmentName := "processed.csv"
  const MainType := "application"
  const SubType := "octet-stream"

  /** The outside world `send_email` talks to: `value.to_csv(index=False)`
      (None when the value cannot be written as CSV) and one SMTP session
      (connect, STARTTLS, login, send), consulted with the batch position. */
  datatype Transport = Transport(toCsv: Value -> Option<Bytes>, deliver: (nat, Outbound) -> bool)

  /** What a `send_email` call did: the messages handed to SMTP, in order,
      and the exception that ended it, if any. */
  datatype SendReport = SendReport(sent: seq<Outbound>, fault: Option<string>)

  const CsvFault := "value cannot be written as CSV"
  const SmtpFault := "SMTP session failed"

  predicate Composed(m: Outbound, from: string, to: string, csv: Bytes) {
    && m.from == from && m.to == to
    && m.subject == Subject && m.text == BodyText
    && m.attachment == Attachment(AttachmentName, MainType, SubType, csv)
  }

  function Compose(from: string, to: string, csv: Bytes): (m: Outbound)
    ensures Composed(m, from, to, csv)
  {
    Outbound(from, to, Subject, BodyText, Attachment(AttachmentName, MainType, SubType, csv))
  }

  /** `send_email(value, recipients)` sent from `from`. Recipients are
      served in order; the first failure ends the call, and messages already
      sent stay sent. */
  function SendEmail(k: nat, from: string, value: Value, recipients: seq<string>, t: Transport)
    : (rep: SendReport)
    ensures |rep.sent| <= |recipients|
    ensures forall i :: 0 <= i < |rep.sent| ==>
              t.toCsv(value).Some? && Composed(rep.sent[i], from, recipients[i], t.toCsv(value).value)
              && t.deliver(k, rep.sent[i])
    ensures rep.fault.None? <==> |rep.sent| == |recipients|
    ensures t.toCsv(value).None? ==> rep.sent == []
    ensures rep.fault.Some? ==>
              t.toCsv(value).None?
              || !t.deliver(k, Compose(from, recipients[|rep.sent|], t.toCsv(value).value))
    decreases |recipients|
  {
    if |recipients| == 0 then SendReport([], None)
    else
      match t.toCsv(value)
      case None => SendReport([], Some(CsvFault))
      case Some(csv) =>
        var m := Compose(from, recipients[0], csv);
        if !t.deliver(k, m) then SendReport([], Some(SmtpFault))
        else
          var rest := SendEmail(k, from, value, recipients[1..], t);
          SendReport([m] + rest.sent, rest.fault)
  }

  /** Sending to a single address either sends exactly one message to it
      or sends nothing and reports the failure. */
  lemma SendToOne(k: nat, from: string, value: Value, to: string, t: Transport)
    ensures var rep := SendEmail(k, from, value, [to], t);
            (rep.fault.None? && |rep.sent| == 1 && rep.sent[0].to == to)
            || (rep.fault.Some? && rep.sent == [])
  {
  }
}
