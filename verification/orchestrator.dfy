/** `main`: every fetched message goes through read, generate, execute and
    reply inside its own exception handler, so a failing message costs
    only itself. */
module Orchestrator {
  import opened Base
  import opened Attachments
  import opened Synthesizer
  import opened Sandbox
  import opened Mailer
  import opened Mailbox

  /** Everything outside the decision logic: the account the replies come
      from and the external collaborators, each a function parameter. */
  datatype Services = Services(
    account: string,
    parse: Parser,
    render: ColumnRenderer,
    infer: Inference,
    exec: Executor,
    transport: Transport)

  /** How one message's pass ended: the reply that was sent, or the step
      whose exception the handler caught. */
  datatype MessageOutcome =
    | Replied(reply: Outbound)
    | ReadFailed(readError: ReadError)
    | GenerateFailed(reason: string)
    | SendFailed(reason: string)

  /** `send_email(df_processed, [mail_data["sender"]])`: exactly one
      message to the sender, or the exception that stopped it. */
  function Reply(k: nat, account: string, sender: string, result: Value, t: Transport)
    : (r: MessageOutcome)
    ensures r.Replied? || r.SendFailed?
    ensures r.Replied? <==>
              t.toCsv(result).Some? && t.deliver(k, Compose(account, sender, t.toCsv(result).value))
    ensures r.Replied? ==> r.reply == Compose(account, sender, t.toCsv(result).value)
  {
    var report := SendEmail(k, account, result, [sender], t);
    SendToOne(k, account, result, sender, t);
    match report.fault
    case Some(e) => SendFailed(e)
    case None => Replied(report.sent[0])
  }

  /** The body of the `try` block for the message at batch position `k`. */
  function Process(k: nat, m: InboundMessage, svc: Services): (r: MessageOutcome)
    ensures r.Replied? ==> Composed(r.reply, svc.account, m.sender, r.reply.attachment.content)
  {
    match ReadAttachment(m.fileName, m.attachment, svc.parse)
    case Err(e) => ReadFailed(e)
    case Ok((df, _)) =>
      match GenerateCode(k, m.body, df.columns, svc.render, svc.infer)
      case Err(e) => GenerateFailed(e)
      case Ok(code) => Reply(k, svc.account, m.sender, SafeExecute(k, code, df, svc.exec), svc.transport)
  }

  /** A fault in the generated program is absorbed: the sender still gets
      the dataset object back, as the program left it, unless the reply
      itself cannot be sent; a program that faulted without changing the
      object sends back the original dataset. */
  lemma ProgramFaultRepliesWithInput(k: nat, m: InboundMessage, svc: Services, df: Dataset, kind: FileType, code: string)
    requires ReadAttachment(m.fileName, m.attachment, svc.parse) == Ok((df, kind))
    requires GenerateCode(k, m.body, df.columns, svc.render, svc.infer) == Ok(code)
    requires svc.exec(k, code, FreshEnv(df)).Fault?
    ensures var left := Frame(svc.exec(k, code, FreshEnv(df)).input);
            Process(k, m, svc) == Reply(k, svc.account, m.sender, left, svc.transport)
            && (Process(k, m, svc).Replied? <==>
                  svc.transport.toCsv(left).Some?
                  && svc.transport.deliver(k, Compose(svc.account, m.sender, svc.transport.toCsv(left).value)))
    ensures svc.exec(k, code, FreshEnv(df)).input == df
            ==> Process(k, m, svc) == Reply(k, svc.account, m.sender, Frame(df), svc.transport)
  {
  }

  /** An exception while reading the attachment fails the message with it. */
  lemma ReadFailureIsCaught(k: nat, m: InboundMessage, svc: Services, e: ReadError)
    requires ReadAttachment(m.fileName, m.attachment, svc.parse) == Err(e)
    ensures Process(k, m, svc) == ReadFailed(e)
  {
  }

  /** An exception from the language model fails the message with it. */
  lemma GenerateFailureIsCaught(k: nat, m: InboundMessage, svc: Services, df: Dataset, kind: FileType, e: string)
    requires ReadAttachment(m.fileName, m.attachment, svc.parse) == Ok((df, kind))
    requires GenerateCode(k, m.body, df.columns, svc.render, svc.infer) == Err(e)
    ensures Process(k, m, svc) == GenerateFailed(e)
  {
  }

  /** Once a program was generated the message ends in a reply or in a
      failed send, whatever the program does. */
  lemma GeneratedMeansReplyOrSendFailure(k: nat, m: InboundMessage, svc: Services, df: Dataset, kind: FileType, code: string)
    requires ReadAttachment(m.fileName, m.attachment, svc.parse) == Ok((df, kind))
    requires GenerateCode(k, m.body, df.columns, svc.render, svc.infer) == Ok(code)
    ensures Process(k, m, svc) == Reply(k, svc.account, m.sender, SafeExecute(k, code, df, svc.exec), svc.transport)
    ensures Process(k, m, svc).Replied? || Process(k, m, svc).SendFailed?
  {
  }

  /** An unsupported or missing file name fails the message before the
      language model or the interpreter is consulted: the outcome is the
      same whatever those two would have done. */
  lemma UnreadableNeverExecutes(k: nat, m: InboundMessage, svc: Services, infer: Inference, exec: Executor)
    requires m.fileName.None? || Classify(m.fileName.value).None?
    ensures Process(k, m, svc) == Process(k, m, svc.(infer := infer, exec := exec))
    ensures Process(k, m, svc).ReadFailed?
  {
  }

  /** The replies of a batch, in order. */
  function Replies(outcomes: seq<MessageOutcome>): (out: seq<Outbound>)
    ensures |out| <= |outcomes|
  {
    if |outcomes| == 0 then []
    else
      var rest := Replies(outcomes[1..]);
      if outcomes[0].Replied? then [outcomes[0].reply] + rest else rest
  }

  lemma ReplyGoesToSender(k: nat, m: InboundMessage, svc: Services)
    ensures Process(k, m, svc).Replied? ==> Process(k, m, svc).reply.to == m.sender
  {
  }

  /** Replies addressed to the senders of their messages stay addressed to
      senders of the batch once collected. */
  lemma {:induction false} RepliesGoToSenders(batch: seq<InboundMessage>, outcomes: seq<MessageOutcome>)
    requires |outcomes| == |batch|
    requires forall k :: 0 <= k < |batch| && outcomes[k].Replied? ==> outcomes[k].reply.to == batch[k].sender
    ensures forall o :: o in Replies(outcomes) ==> exists k :: 0 <= k < |batch| && o.to == batch[k].sender
  {
    if |batch| > 0 {
      assert forall k :: 0 <= k < |batch| - 1 ==> outcomes[1..][k] == outcomes[k + 1] && batch[1..][k] == batch[k + 1];
      RepliesGoToSenders(batch[1..], outcomes[1..]);
      forall o | o in Replies(outcomes[1..]) ensures exists k :: 0 <= k < |batch| && o.to == batch[k].sender {
        var k :| 0 <= k < |batch| - 1 && o.to == batch[1..][k].sender;
        assert batch[k + 1] == batch[1..][k];
      }
    }
  }

  /** The loop of `main`, for any per-message handler: each message is
      attempted exactly once, in order, its outcome depends on that message
      and its position alone, and the replies are collected in order. */
  method AttemptEach(batch: seq<InboundMessage>, attempt: (nat, InboundMessage) -> MessageOutcome)
    returns (outcomes: seq<MessageOutcome>, outbox: seq<Outbound>)
    ensures |outcomes| == |batch|
    ensures forall k :: 0 <= k < |batch| ==> outcomes[k] == attempt(k, batch[k])
    ensures outbox == Replies(outcomes)
  {
    outcomes := [];
    outbox := [];
    var k := 0;
    while k < |batch|
      invariant 0 <= k <= |batch|
      invariant |outcomes| == k
      invariant forall j :: 0 <= j < k ==> outcomes[j] == attempt(j, batch[j])
      invariant outbox == Replies(outcomes)
    {
      var outcome := attempt(k, batch[k]);
      RepliesAppend(outcomes, outcome);
      outcomes := outcomes + [outcome];
      if outcome.Replied? {
        outbox := outbox + [outcome.reply];
      }
      k := k + 1;
    }
  }

  /** `main`'s loop over a fetched batch with the real handler. */
  method RunBatch(batch: seq<InboundMessage>, svc: Services)
    returns (outcomes: seq<MessageOutcome>, outbox: seq<Outbound>)
    ensures |outcomes| == |batch|
    ensures forall k :: 0 <= k < |batch| ==> outcomes[k] == Process(k, batch[k], svc)
    ensures outbox == Replies(outcomes)
    ensures forall k :: 0 <= k < |batch| && outcomes[k].Replied? ==> outcomes[k].reply.to == batch[k].sender
  {
    outcomes, outbox := AttemptEach(batch, (k: nat, m: InboundMessage) => Process(k, m, svc));
    forall j | 0 <= j < |batch| && outcomes[j].Replied? ensures outcomes[j].reply.to == batch[j].sender {
      ReplyGoesToSender(j, batch[j], svc);
    }
  }

  lemma {:induction false} RepliesAppend(outcomes: seq<MessageOutcome>, o: MessageOutcome)
    ensures Replies(outcomes + [o]) == Replies(outcomes) + (if o.Replied? then [o.reply] else [])
  {
    if |outcomes| > 0 {
      assert (outcomes + [o])[1..] == outcomes[1..] + [o];
      RepliesAppend(outcomes[1..], o);
    } else {
      assert [] + [o] == [o];
    }
  }

  /** One run of `main`: fetch the batch, then process it. A fault while
      fetching aborts the run before any message is processed. */
  method Run(unseen: seq<MessageId>, fetch: MessageId -> RawMessage, decode: TextDecoder, svc: Services)
    returns (r: Result<(seq<MessageOutcome>, seq<Outbound>), string>)
    ensures r.Err? <==> Selected(LastFive(unseen), fetch, decode).Err?
    ensures r.Ok? ==>
              var batch := Selected(LastFive(unseen), fetch, decode).value;
              && |r.value.0| == |batch| <= BatchSize
              && (forall k :: 0 <= k < |batch| ==> r.value.0[k] == Process(k, batch[k], svc))
              && r.value.1 == Replies(r.value.0)
  {
    var fetched := FetchUnread(unseen, fetch, decode);
    match fetched {
      case Err(e) =>
        r := Err(e);
      case Ok(batch) =>
        var outcomes, outbox := RunBatch(batch, svc);
        r := Ok((outcomes, outbox));
    }
  }
}
