/** `fetch_unread_emails`: the last five unseen messages, each reduced to
    sender, subject, plain-text body and one attachment by a walk over its
    MIME parts in which later parts overwrite earlier ones. */
module Mailbox {
  import opened Base
  import opened Text

  /** One MIME part as `msg.walk()` yields it, already parsed:
      its content type, its Content-Disposition header, `get_filename()`
      and `get_payload(decode=True)` (None for a multipart container). */
  datatype Part = Part(contentType: string, disposition: Option<string>,
                       fileName: Option<string>, payload: Option<Bytes>)

  /** A fetched message: the address part of From, the Subject header and
      its parts in walk order (the message itself first). */
  datatype RawMessage = RawMessage(sender: string, subject: Option<string>, parts: seq<Part>)

  /** The record the batch hands to the orchestrator. */
  datatype InboundMessage = InboundMessage(sender: string, subject: Option<string>, body: string,
                                           fileName: Option<string>, attachment: Bytes)

  /** The three variables the part walk updates. */
  datatype WalkState = WalkState(body: string, fileName: Option<string>, attachment: Option<Bytes>)

  /** `bytes.decode()` (UTF-8); None when the bytes are not valid text. */
  type TextDecoder = Bytes -> Option<string>

  type MessageId = string

  const BatchSize := 5
  const Initial := WalkState("", None, None)

  /** A part that supplies the body: plain text without a file name. */
  predicate IsBodyPart(p: Part) {
    p.contentType == "text/plain" && !TruthyText(p.fileName)
  }

  /** A part carrying a (non-empty) Content-Disposition header. */
  predicate HasDisposition(p: Part) {
    TruthyText(p.disposition)
  }

  /** A part that supplies the attachment: a disposition and a file name. */
  predicate IsAttachmentPart(p: Part) {
    HasDisposition(p) && TruthyText(p.fileName)
  }

  /** The decoded text of a body part; None when decoding raises. */
  function BodyText(p: Part, decode: TextDecoder): Option<string> {
    match p.payload
    case None => None
    case Some(b) => decode(b)
  }

  /** The file name a disposition part leaves behind: lower-cased when
      truthy, otherwise as it is (None or the empty name). */
  function NameOf(p: Part): (n: Option<string>)
    ensures TruthyText(p.fileName) ==> n == Some(Lower(p.fileName.value))
    ensures !TruthyText(p.fileName) ==> n == p.fileName
  {
    if TruthyText(p.fileName) then Some(Lower(p.fileName.value)) else p.fileName
  }

  /** One iteration of the loop over `msg.walk()`. */
  function Step(st: WalkState, p: Part, decode: TextDecoder): (r: Result<WalkState, string>)
    ensures r.Err? <==> IsBodyPart(p) && BodyText(p, decode).None?
    ensures r.Ok? && IsBodyPart(p) ==> Some(r.value.body) == BodyText(p, decode)
    ensures r.Ok? && !IsBodyPart(p) ==> r.value.body == st.body
    ensures r.Ok? && HasDisposition(p) ==> r.value.fileName == NameOf(p)
    ensures r.Ok? && !HasDisposition(p) ==> r.value.fileName == st.fileName
    ensures r.Ok? && IsAttachmentPart(p) ==> r.value.attachment == p.payload
    ensures r.Ok? && !IsAttachmentPart(p) ==> r.value.attachment == st.attachment
  {
    if IsBodyPart(p) && BodyText(p, decode).None? then Err("body is not valid text")
    else
      var body := if IsBodyPart(p) then BodyText(p, decode).value else st.body;
      if HasDisposition(p) then
        var attachment := if TruthyText(p.fileName) then p.payload else st.attachment;
        Ok(WalkState(body, NameOf(p), attachment))
      else Ok(WalkState(body, st.fileName, st.attachment))
  }

  /** `i` is the last index of `parts` whose part satisfies `P`. */
  ghost predicate IsLast(parts: seq<Part>, i: int, P: Part -> bool) {
    0 <= i < |parts| && P(parts[i]) && forall j :: i < j < |parts| ==> !P(parts[j])
  }

  /** The whole walk, as a fold from the first part to the last. */
  function Walk(parts: seq<Part>, decode: TextDecoder): Result<WalkState, string> {
    if |parts| == 0 then Ok(Initial)
    else
      match Walk(parts[..|parts| - 1], decode)
      case Err(e) => Err(e)
      case Ok(st) => Step(st, parts[|parts| - 1], decode)
  }

  /** The walk raises exactly when some body part cannot be decoded. */
  lemma {:induction false} WalkFails(parts: seq<Part>, decode: TextDecoder)
    ensures Walk(parts, decode).Err? <==>
              exists i :: 0 <= i < |parts| && IsBodyPart(parts[i]) && BodyText(parts[i], decode).None?
  {
    if |parts| > 0 {
      var n := |parts| - 1;
      var init := parts[..n];
      WalkFails(init, decode);
      assert forall i :: 0 <= i < n ==> init[i] == parts[i];
    }
  }

  /** `i` is the last index of `parts` satisfying `P` exactly when it is
      the final index and `P` holds there, or the final part fails `P` and
      `i` is the last such index before it. */
  lemma LastOfPrefix(parts: seq<Part>, i: int, P: Part -> bool)
    requires |parts| > 0
    ensures IsLast(parts, i, P) <==>
              (i == |parts| - 1 && P(parts[i]))
              || (!P(parts[|parts| - 1]) && IsLast(parts[..|parts| - 1], i, P))
  {
  }

  /** The body is the text of the last plain-text part without a file name. */
  lemma {:induction false} WalkBodyIsLastText(parts: seq<Part>, decode: TextDecoder, i: int)
    requires Walk(parts, decode).Ok? && IsLast(parts, i, IsBodyPart)
    ensures BodyText(parts[i], decode) == Some(Walk(parts, decode).value.body)
  {
    var n := |parts| - 1;
    LastOfPrefix(parts, i, IsBodyPart);
    if i < n {
      WalkBodyIsLastText(parts[..n], decode, i);
    }
  }

  /** Without such a part the body stays empty. */
  lemma {:induction false} WalkBodyDefault(parts: seq<Part>, decode: TextDecoder)
    requires Walk(parts, decode).Ok?
    requires forall i :: 0 <= i < |parts| ==> !IsBodyPart(parts[i])
    ensures Walk(parts, decode).value.body == ""
  {
    if |parts| > 0 {
      var n := |parts| - 1;
      assert forall i :: 0 <= i < n ==> parts[..n][i] == parts[i];
      WalkBodyDefault(parts[..n], decode);
    }
  }

  /** `filename` is what the last part with a Content-Disposition header
      left: its lower-cased name, or None/empty when it had none. */
  lemma {:induction false} WalkFileNameIsLastDisposition(parts: seq<Part>, decode: TextDecoder, i: int)
    requires Walk(parts, decode).Ok? && IsLast(parts, i, HasDisposition)
    ensures Walk(parts, decode).value.fileName == NameOf(parts[i])
  {
    var n := |parts| - 1;
    LastOfPrefix(parts, i, HasDisposition);
    if i < n {
      WalkFileNameIsLastDisposition(parts[..n], decode, i);
    }
  }

  /** Without a disposition part `filename` stays None. */
  lemma {:induction false} WalkFileNameDefault(parts: seq<Part>, decode: TextDecoder)
    requires Walk(parts, decode).Ok?
    requires forall i :: 0 <= i < |parts| ==> !HasDisposition(parts[i])
    ensures Walk(parts, decode).value.fileName == None
  {
    if |parts| > 0 {
      var n := |parts| - 1;
      assert forall i :: 0 <= i < n ==> parts[..n][i] == parts[i];
      WalkFileNameDefault(parts[..n], decode);
    }
  }

  /** The attachment bytes are the payload of the last disposition part
      that has a file name; later nameless disposition parts leave them. */
  lemma {:induction false} WalkAttachmentIsLastNamed(parts: seq<Part>, decode: TextDecoder, i: int)
    requires Walk(parts, decode).Ok? && IsLast(parts, i, IsAttachmentPart)
    ensures Walk(parts, decode).value.attachment == parts[i].payload
  {
    var n := |parts| - 1;
    LastOfPrefix(parts, i, IsAttachmentPart);
    if i < n {
      WalkAttachmentIsLastNamed(parts[..n], decode, i);
    }
  }

  /** Without a named disposition part there are no attachment bytes. */
  lemma {:induction false} WalkAttachmentDefault(parts: seq<Part>, decode: TextDecoder)
    requires Walk(parts, decode).Ok?
    requires forall i :: 0 <= i < |parts| ==> !IsAttachmentPart(parts[i])
    ensures Walk(parts, decode).value.attachment == None
  {
    if |parts| > 0 {
      var n := |parts| - 1;
      assert forall i :: 0 <= i < n ==> parts[..n][i] == parts[i];
      WalkAttachmentDefault(parts[..n], decode);
    }
  }

  /** A later part with a Content-Disposition header but no file name
      (an inline image, say) resets `filename` to None while the bytes of
      the earlier attachment survive, so the message is kept without a name. */
  lemma NamelessDispositionResetsFileName(decode: TextDecoder)
    requires decode([104, 105]) == Some("hi")
    ensures var parts := [
              Part("multipart/mixed", None, None, None),
              Part("text/plain", None, None, Some([104, 105])),
              Part("text/csv", Some("attachment"), Some("Sales.CSV"), Some([49, 10])),
              Part("image/png", Some("inline"), None, Some([137]))];
            Walk(parts, decode) == Ok(WalkState("hi", None, Some([49, 10])))
  {
    var parts := [
      Part("multipart/mixed", None, None, None),
      Part("text/plain", None, None, Some([104, 105])),
      Part("text/csv", Some("attachment"), Some("Sales.CSV"), Some([49, 10])),
      Part("image/png", Some("inline"), None, Some([137]))];
    assert parts[..1][..0] == [];
    assert parts[..2][..1] == parts[..1];
    assert parts[..3][..2] == parts[..2];
    assert parts[..4] == parts;
    assert Walk(parts[..1], decode) == Ok(Initial);
    assert BodyText(parts[1], decode) == Some("hi");
    assert Walk(parts[..2], decode) == Ok(WalkState("hi", None, None));
    assert Lower("Sales.CSV") == "sales.csv";
    assert Walk(parts[..3], decode) == Ok(WalkState("hi", Some("sales.csv"), Some([49, 10])));
  }

  /** The per-message part of `fetch_unread_emails`: the walk, then a
      record only when the attachment bytes are truthy. */
  function Extract(m: RawMessage, decode: TextDecoder): (r: Result<Option<InboundMessage>, string>)
    ensures r.Err? <==> Walk(m.parts, decode).Err?
    ensures r.Ok? ==> (r.value.Some? <==> TruthyBytes(Walk(m.parts, decode).value.attachment))
    ensures r.Ok? && r.value.Some? ==>
              var w := Walk(m.parts, decode).value;
              && w.attachment.Some?
              && r.value.value == InboundMessage(m.sender, m.subject, w.body, w.fileName, w.attachment.value)
              && r.value.value.attachment != []
  {
    match Walk(m.parts, decode)
    case Err(e) => Err(e)
    case Ok(w) =>
      if TruthyBytes(w.attachment)
      then Ok(Some(InboundMessage(m.sender, m.subject, w.body, w.fileName, w.attachment.value)))
      else Ok(None)
  }

  /** `mail_ids[-5:]`: the last five ids, in their original order. */
  function LastFive(ids: seq<MessageId>): (w: seq<MessageId>)
    ensures |w| == if |ids| < BatchSize then |ids| else BatchSize
    ensures w == ids[|ids| - |w|..]
  {
    if |ids| <= BatchSize then ids else ids[|ids| - BatchSize..]
  }

  /** The per-message results of `items` under `f`, in order. */
  function MapSeq<A, T>(items: seq<A>, f: A -> Result<Option<T>, string>)
    : (xs: seq<Result<Option<T>, string>>)
    ensures |xs| == |items|
    ensures forall i :: 0 <= i < |items| ==> xs[i] == f(items[i])
  {
    seq(|items|, i requires 0 <= i < |items| => f(items[i]))
  }

  /** The per-message step of the fetch loop: fetch the message, then
      extract its record. */
  function ExtractWith(fetch: MessageId -> RawMessage, decode: TextDecoder)
    : MessageId -> Result<Option<InboundMessage>, string>
  {
    (id: MessageId) => Extract(fetch(id), decode)
  }

  /** The extraction of every message of the window, in window order. */
  function ExtractAll(window: seq<MessageId>, fetch: MessageId -> RawMessage, decode: TextDecoder)
    : (xs: seq<Result<Option<InboundMessage>, string>>)
    ensures |xs| == |window|
    ensures forall i :: 0 <= i < |window| ==> xs[i] == Extract(fetch(window[i]), decode)
  {
    MapSeq(window, ExtractWith(fetch, decode))
  }

  /** Collecting per-message results in order: the first error aborts,
      and only present records are kept. */
  function Keep<T>(xs: seq<Result<Option<T>, string>>): (r: Result<seq<T>, string>)
    ensures r.Ok? <==> forall i :: 0 <= i < |xs| ==> xs[i].Ok?
    ensures r.Err? ==> exists i :: 0 <= i < |xs| && xs[i] == Err(r.error)
    ensures r.Ok? ==> |r.value| <= |xs|
  {
    if |xs| == 0 then Ok([])
    else
      match xs[0]
      case Err(e) => Err(e)
      case Ok(kept) =>
        var rest := Keep(xs[1..]);
        assert forall i :: 1 <= i < |xs| ==> xs[i] == xs[1..][i - 1];
        match rest
        case Err(e) => Err(e)
        case Ok(tail) => if kept.Some? then Ok([kept.value] + tail) else Ok(tail)
  }

  /** `idx` says where each kept record came from: strictly increasing
      positions of `xs` holding exactly those records. */
  ghost predicate IndexesSound<T>(xs: seq<Result<Option<T>, string>>, ms: seq<T>, idx: seq<nat>) {
    && |idx| == |ms|
    && (forall k :: 0 <= k < |idx| ==> idx[k] < |xs| && xs[idx[k]] == Ok(Some(ms[k])))
    && (forall k, l :: 0 <= k < l < |idx| ==> idx[k] < idx[l])
  }

  /** Every position of `xs` holding a record is listed in `idx`. */
  ghost predicate IndexesComplete<T>(xs: seq<Result<Option<T>, string>>, idx: seq<nat>) {
    forall i :: 0 <= i < |xs| && xs[i].Ok? && xs[i].value.Some? ==> i in idx
  }

  /** The kept records are the present records of `xs`, in order, each
      once: `KeepIndices` names the position each came from. */
  ghost function KeepIndices<T>(xs: seq<Result<Option<T>, string>>): (idx: seq<nat>)
    requires Keep(xs).Ok?
    ensures IndexesSound(xs, Keep(xs).value, idx)
    ensures IndexesComplete(xs, idx)
  {
    if |xs| == 0 then []
    else
      var tail := KeepIndices(xs[1..]);
      var shifted := seq(|tail|, k requires 0 <= k < |tail| => tail[k] + 1);
      KeepIndicesStep(xs, tail, shifted);
      if xs[0].value.Some? then [0] + shifted else shifted
  }

  lemma KeepIndicesStep<T>(xs: seq<Result<Option<T>, string>>, tail: seq<nat>, shifted: seq<nat>)
    requires |xs| > 0 && Keep(xs).Ok?
    requires IndexesSound(xs[1..], Keep(xs[1..]).value, tail) && IndexesComplete(xs[1..], tail)
    requires |shifted| == |tail| && forall k :: 0 <= k < |tail| ==> shifted[k] == tail[k] + 1
    ensures var idx := if xs[0].value.Some? then [0] + shifted else shifted;
            IndexesSound(xs, Keep(xs).value, idx) && IndexesComplete(xs, idx)
  {
    var rest := Keep(xs[1..]).value;
    ShiftSound(xs, rest, tail, shifted);
    ShiftComplete(xs, tail, shifted);
    if xs[0].value.Some? {
      assert Keep(xs).value == [xs[0].value.value] + rest;
      ConsSound(xs, rest, shifted);
    } else {
      assert Keep(xs).value == rest;
    }
  }

  lemma ShiftSound<T>(xs: seq<Result<Option<T>, string>>, rest: seq<T>, tail: seq<nat>, shifted: seq<nat>)
    requires |xs| > 0 && IndexesSound(xs[1..], rest, tail)
    requires |shifted| == |tail| && forall k :: 0 <= k < |tail| ==> shifted[k] == tail[k] + 1
    ensures IndexesSound(xs, rest, shifted)
  {
    forall k | 0 <= k < |shifted| ensures shifted[k] < |xs| && xs[shifted[k]] == Ok(Some(rest[k])) {
      assert xs[shifted[k]] == xs[1..][tail[k]];
    }
  }

  lemma ConsSound<T>(xs: seq<Result<Option<T>, string>>, rest: seq<T>, shifted: seq<nat>)
    requires |xs| > 0 && xs[0].Ok? && xs[0].value.Some?
    requires IndexesSound(xs, rest, shifted)
    requires forall k :: 0 <= k < |shifted| ==> shifted[k] >= 1
    ensures IndexesSound(xs, [xs[0].value.value] + rest, [0] + shifted)
  {
    var idx := [0] + shifted;
    var ms := [xs[0].value.value] + rest;
    assert forall k :: 1 <= k < |idx| ==> idx[k] == shifted[k - 1] && ms[k] == rest[k - 1];
  }

  lemma ShiftComplete<T>(xs: seq<Result<Option<T>, string>>, tail: seq<nat>, shifted: seq<nat>)
    requires |xs| > 0 && IndexesComplete(xs[1..], tail)
    requires |shifted| == |tail| && forall k :: 0 <= k < |tail| ==> shifted[k] == tail[k] + 1
    ensures forall i :: 1 <= i < |xs| && xs[i].Ok? && xs[i].value.Some? ==> i in shifted
    ensures xs[0].Ok? && xs[0].value.Some? ==> IndexesComplete(xs, [0] + shifted)
    ensures !(xs[0].Ok? && xs[0].value.Some?) ==> IndexesComplete(xs, shifted)
  {
    forall i | 1 <= i < |xs| && xs[i].Ok? && xs[i].value.Some? ensures i in shifted {
      assert xs[1..][i - 1] == xs[i];
      var k :| 0 <= k < |tail| && tail[k] == i - 1;
      assert shifted[k] == i;
    }
  }

  /** Reference meaning of the batch: every message of the window is
      extracted in order, kept only when it has an attachment, and the
      first extraction that raises aborts the whole batch. */
  function Selected(window: seq<MessageId>, fetch: MessageId -> RawMessage, decode: TextDecoder)
    : (r: Result<seq<InboundMessage>, string>)
    ensures r.Ok? <==> forall i :: 0 <= i < |window| ==> Extract(fetch(window[i]), decode).Ok?
    ensures r.Ok? ==> |r.value| <= |window|
  {
    Keep(ExtractAll(window, fetch, decode))
  }

  /** Every record of a batch carries non-empty attachment bytes and is
      the extraction of one message of the window; the records keep the
      window's order and every message with an attachment is among them. */
  lemma SelectedIsOrderedFilter(window: seq<MessageId>, fetch: MessageId -> RawMessage, decode: TextDecoder)
    requires Selected(window, fetch, decode).Ok?
    ensures var ms := Selected(window, fetch, decode).value;
            && (forall k :: 0 <= k < |ms| ==> ms[k].attachment != [])
            && exists idx :: IndexesSound(ExtractAll(window, fetch, decode), ms, idx)
                           && IndexesComplete(ExtractAll(window, fetch, decode), idx)
  {
    var xs := ExtractAll(window, fetch, decode);
    var ms := Selected(window, fetch, decode).value;
    var idx := KeepIndices(xs);
    forall k | 0 <= k < |ms| ensures ms[k].attachment != [] {
      assert Extract(fetch(window[idx[k]]), decode) == Ok(Some(ms[k]));
    }
  }

  /** The records of a successful batch, preceded by `done`. */
  function PrependTo<T>(done: seq<T>, r: Result<seq<T>, string>): (r': Result<seq<T>, string>)
    ensures done == [] ==> r' == r
  {
    match r
    case Err(e) => Err(e)
    case Ok(rest) =>
      assert done == [] ==> done + rest == rest;
      Ok(done + rest)
  }

  /** The loop of `fetch_unread_emails` for any per-message extraction:
      items are handled in order, records appended as they come, and the
      first exception ends the loop. */
  method CollectInOrder<A, T>(items: seq<A>, f: A -> Result<Option<T>, string>)
    returns (r: Result<seq<T>, string>)
    ensures r == Keep(MapSeq(items, f))
  {
    ghost var xs := MapSeq(items, f);
    var found: seq<T> := [];
    var n := 0;
    while n < |items|
      invariant 0 <= n <= |items|
      invariant Keep(xs) == PrependTo(found, Keep(xs[n..]))
    {
      assert xs[n..][1..] == xs[n + 1..];
      var extracted := f(items[n]);
      assert xs[n..][0] == extracted;
      match extracted {
        case Err(e) =>
          return Err(e);
        case Ok(kept) =>
          if kept.Some? {
            assert Keep(xs[n..]) == PrependTo([kept.value], Keep(xs[n + 1..]));
            PrependTwice(found, [kept.value], Keep(xs[n + 1..]));
            found := found + [kept.value];
          } else {
            assert Keep(xs[n..]) == Keep(xs[n + 1..]);
          }
      }
      n := n + 1;
    }
    assert xs[n..] == [];
    assert found + [] == found;
    r := Ok(found);
  }

  lemma PrependTwice<T>(a: seq<T>, b: seq<T>, r: Result<seq<T>, string>)
    ensures PrependTo(a, PrependTo(b, r)) == PrependTo(a + b, r)
  {
    if r.Ok? {
      assert a + (b + r.value) == (a + b) + r.value;
    }
  }

  /** `fetch_unread_emails()` after the IMAP search: the unseen ids are
      given, `fetch` stands for the RFC822 fetch plus MIME parsing. */
  method FetchUnread(unseen: seq<MessageId>, fetch: MessageId -> RawMessage, decode: TextDecoder)
    returns (r: Result<seq<InboundMessage>, string>)
    ensures r == Selected(LastFive(unseen), fetch, decode)
  {
    r := CollectInOrder(LastFive(unseen), ExtractWith(fetch, decode));
  }
}
