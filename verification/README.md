# Mailbox data agent — Dafny model

This project models the decision logic of a small unattended mailbox agent
(`gmail_file_bot.py`). The agent takes the five newest unread messages and keeps
those that carry attachment bytes. A CSV or Excel attachment is read; any
other type fails that message. It asks a language model to write a pandas program from
the message's text. It runs that program on the attached table inside a
near-empty namespace and mails the result back to the sender.

The mailbox, the language model, pandas, Python's `exec` and SMTP are not
modelled as code. Each is a function-typed parameter (an oracle). The logic
around them is modelled as pure functions over immutable datatypes.

Modules, one per file, following the source's sections:

- `Base` (`base.dfy`): `Option`, `Result`, bytes, the `Dataset` (column names and
  rows) and Python truthiness of optional strings and bytes.
- `Text` (`text.dfy`): the Python `str` operations used. These are `isspace`
  with the full Unicode whitespace set, `strip`, `startswith`/`endswith`,
  ASCII `lower`, `split("\n")` and `"\n".join`. It also holds their round-trip
  lemmas.
- `Attachments` (`attachments.dfy`): `read_attachment`, the extension dispatch.
- `Synthesizer` (`synthesizer.dfy`): the prompt, fence stripping and
  `get_generated_code`.
- `Sandbox` (`sandbox.dfy`): the three-name namespace and `safe_execute`.
- `Mailer` (`mailer.dfy`): `send_email`, one message per recipient.
- `Mailbox` (`mailbox.dfy`): `fetch_unread_emails`. This covers the last-five
  window, the walk over MIME parts and the filter on attachment bytes.
- `Orchestrator` (`orchestrator.dfy`): `main`'s per-message `try` block and loop.

Behaviour of the code the model keeps, including the less obvious cases:

- The part walk overwrites on every matching part, so the *last* plain-text
  part without a file name gives the body, and the *last* part with a
  disposition and a file name gives the attachment.
- The code drops the first and the last line of a response that starts with
  three back-ticks, whatever the last line holds.
- The comment above the reply says "Send to original sender if not already
  sent", but the code always sends the result to the sender. The model follows
  the code. Mail the generated program sends itself is not recorded, so an
  "already sent" case cannot be expressed.
- The namespace shares the caller's DataFrame object. A program that changes
  it in place and then raises, or unbinds `df`, gets that changed object sent
  back, not the table as it was read.
- A later part that has a Content-Disposition header but no file name resets
  `filename` to None. The bytes of the earlier attachment survive. The message
  is then kept with no name and fails in `read_attachment` (`None.endswith`).
  `Mailbox.NamelessDispositionResetsFileName` shows this on a concrete message.

## Model

| member | source | states |
|---|---|---|
| `Attachments.Classify` | gmail_file_bot.py:71-78 | `.csv` gives Csv exactly when the name ends in `.csv`; Excel exactly when it does not but ends in `.xlsx` or `.xls`; no type exactly when none of the three suffixes matches |
| `Attachments.SuffixesExclusive` | gmail_file_bot.py:71-76 | no name ends in two of the three suffixes; the Excel suffixes exclude `.csv`, so testing `.csv` first never hides an Excel name: Excel is chosen exactly for the two Excel suffixes |
| `Attachments.ReadAttachment` | gmail_file_bot.py:70-79 | a missing name fails (AttributeError); an unknown extension fails with a message ending in the file name; success exactly when the extension is known and the matching parser accepts the bytes, returning that parser's dataset and the detected type; parser errors are passed on |
| `Attachments.TextFileRefused` | gmail_file_bot.py:77-78 | a `.txt` name is refused with `Unsupported file type: <name>` |
| `Text.IsSpace` | gmail_file_bot.py:103 | the characters Python 3's `str.isspace` accepts, which `strip()` removes: U+0009-U+000D, U+001C-U+0020, U+0085, U+00A0, U+1680, U+2000-U+200A, U+2028, U+2029, U+202F, U+205F and U+3000; `Text.Strip` removes exactly these at the edges |
| `Text.StartsWith` | gmail_file_bot.py:105 | `str.startswith`: the affix is a prefix of the text (its first characters, so never longer than the text); an empty affix always matches |
| `Text.EndsWith` | gmail_file_bot.py:71-74 | `str.endswith`: the affix is a suffix of the text (its last characters, so never longer than the text); an empty affix always matches |
| `Text.Strip` | gmail_file_bot.py:103 | the result has no whitespace at either end and is a slice of the input surrounded only by whitespace |
| `Text.StripPadded` | gmail_file_bot.py:103 | stripping whitespace padding from a text without edge whitespace returns exactly that text |
| `Text.StripIdempotent` | gmail_file_bot.py:103 | stripping twice equals stripping once |
| `Text.Lower` | gmail_file_bot.py:54 | the lower-cased name has the same length, and each character is folded from A-Z or unchanged |
| `Text.Split` | gmail_file_bot.py:106 | `split("\n")` yields at least one line, and no line contains a newline |
| `Text.Join` | gmail_file_bot.py:106 | `"\n".join`: with `Text.JoinSplit` and `Text.SplitJoin` it is the inverse of `split("\n")` on newline-free lines, and `Text.JoinAppend` puts exactly one newline between groups |
| `Text.JoinSplit` | gmail_file_bot.py:106 | re-joining the split lines with newlines gives the text back |
| `Text.SplitJoin` | gmail_file_bot.py:106 | splitting newline-joined, newline-free lines gives the lines back |
| `Text.JoinAppend` | gmail_file_bot.py:106 | joining two non-empty groups of lines puts exactly one newline between their joins |
| `Synthesizer.BuildPrompt` | gmail_file_bot.py:83-101 | the prompt starts with the assistant preamble, contains the rendered column list, contains the section naming the two symbols the program may use (`df` and `send_email(df, to_emails)`), contains the instruction verbatim between double quotes, and contains all four rules: no imports, only plain Python code without markdown, no file I/O, no print |
| `Synthesizer.Interior` | gmail_file_bot.py:106 | `xs[1:-1]` is empty for at most two elements, otherwise the elements strictly between the first and the last |
| `Synthesizer.Unfence` | gmail_file_bot.py:105-106 | a text that does not start with three back-ticks is returned unchanged |
| `Synthesizer.UnfenceKeepsInterior` | gmail_file_bot.py:105-106 | for a fenced text the result is exactly the text strictly between its first and its last newline |
| `Synthesizer.UnfenceShortIsEmpty` | gmail_file_bot.py:105-106 | a fenced text with at most one newline (fewer than three lines) gives the empty program |
| `Synthesizer.PostProcess` | gmail_file_bot.py:103-107 | a response whose stripped form does not open a fence becomes the stripped response |
| `Synthesizer.PostProcessFenced` | gmail_file_bot.py:103-107 | a response made of newline-free lines whose first line opens a fence, padded by any whitespace, yields exactly its inner lines joined by newlines |
| `Synthesizer.GenerateCode` | gmail_file_bot.py:82-107 | the language model is asked with the built prompt; its failure is passed on unchanged; otherwise the program is the post-processed completion |
| `Sandbox.FreshEnv` | gmail_file_bot.py:134-138 | the namespace has exactly the keys `__builtins__`, `df` and `send_email`, binding an empty built-ins table, the dataset and the mail capability; `df` is the only name bound to a dataset |
| `Sandbox.SafeExecute` | gmail_file_bot.py:133-145 | never raises; a fault gives back the input object in the state the program left it; normal completion gives the post-execution `df` binding, or that input object if `df` was removed; so the result is the input object or the program's `df` |
| `Sandbox.SafeExecuteSeesOnlyFreshEnv` | gmail_file_bot.py:134-140 | the result depends only on how the program behaves on the fresh namespace |
| `Sandbox.UntouchedInputIsKept` | gmail_file_bot.py:139-145 | a program that does not change the input object in place, and then raises, removes `df` or leaves it bound to the input, hands back the dataset it was given |
| `Sandbox.InPlaceChangeSurvivesFault` | gmail_file_bot.py:134-145 | a program that changed the shared input object and then raised hands back the changed object, which differs from the dataset it was given |
| `Mailer.Compose` | gmail_file_bot.py:112-125 | the message is from the account to the recipient with subject "Processed DataFrame", the fixed text and one attachment `processed.csv` of type application/octet-stream holding the CSV bytes |
| `Mailer.SendEmail` | gmail_file_bot.py:110-130 | message i goes to recipient i in list order, composed as above from the value's CSV and accepted by SMTP; every recipient is served exactly when no fault occurs; a value with no CSV form sends nothing; a fault names the CSV step or the SMTP session of the first unserved recipient |
| `Mailer.SendToOne` | gmail_file_bot.py:162 | sending to `[sender]` sends exactly one message to the sender, or nothing and a fault |
| `Mailbox.NameOf` | gmail_file_bot.py:52-54 | a disposition part leaves its file name lower-cased when it is non-empty, otherwise None or the empty name as given |
| `Mailbox.Step` | gmail_file_bot.py:48-55 | one part raises exactly when it is a body part whose payload cannot be decoded; otherwise a body part sets the body to its text, a disposition part sets the file name (lower-cased or reset), a named disposition part sets the attachment bytes, and nothing else changes |
| `Mailbox.Walk` | gmail_file_bot.py:44-55 | the loop over `msg.walk()` from the initial empty state; the `Mailbox.Walk*` lemmas characterise its result as the last matching part of each kind, or the initial value |
| `Mailbox.WalkFails` | gmail_file_bot.py:48-50 | the part walk raises exactly when some plain-text part without a file name cannot be decoded |
| `Mailbox.WalkBodyIsLastText` | gmail_file_bot.py:48-50 | the body is the decoded text of the last plain-text part without a file name |
| `Mailbox.WalkBodyDefault` | gmail_file_bot.py:44-50 | with no such part the body stays empty |
| `Mailbox.WalkFileNameIsLastDisposition` | gmail_file_bot.py:51-54 | `filename` is what the last part with a Content-Disposition header left, even when that part has no name |
| `Mailbox.WalkFileNameDefault` | gmail_file_bot.py:46-54 | with no disposition part `filename` stays None |
| `Mailbox.WalkAttachmentIsLastNamed` | gmail_file_bot.py:51-55 | the attachment bytes are the payload of the last disposition part that has a file name |
| `Mailbox.WalkAttachmentDefault` | gmail_file_bot.py:45-55 | with no named disposition part there are no attachment bytes |
| `Mailbox.NamelessDispositionResetsFileName` | gmail_file_bot.py:51-55 | an inline part without a name after a `Sales.CSV` attachment leaves `filename` None while the CSV bytes are kept |
| `Mailbox.Extract` | gmail_file_bot.py:38-64 | a message raises exactly when its walk does; a record is produced exactly when the attachment bytes are truthy; the record carries the sender, subject, body, file name and bytes from the walk, with non-empty bytes |
| `Mailbox.LastFive` | gmail_file_bot.py:37 | the window is the suffix of the unseen ids of length min(5, count), in original order |
| `Mailbox.Keep` | gmail_file_bot.py:36-64 | collecting per-message results succeeds exactly when every message succeeds; a failure is one of the messages' errors; at most one record per message |
| `Mailbox.KeepIndices` | gmail_file_bot.py:37-64 | the kept records sit at strictly increasing positions of the input, each equal to the record found there, and every position holding a record is among them |
| `Mailbox.Selected` | gmail_file_bot.py:36-64 | the batch succeeds exactly when every message of the window extracts without raising, and has no more records than the window |
| `Mailbox.SelectedIsOrderedFilter` | gmail_file_bot.py:37-64 | every batch record has non-empty attachment bytes; the records are the extractions of window messages, in window order, each once, and none with an attachment is skipped |
| `Mailbox.CollectInOrder` | gmail_file_bot.py:36-64 | the loop over the window handles items in order, appending records as they come, and stops at the first exception: its result is the reference collection of the per-item results |
| `Mailbox.FetchUnread` | gmail_file_bot.py:28-67 | the loop over the last five ids computes the reference batch (so at most five records, by `Mailbox.LastFive` and `Mailbox.Selected`) |
| `Orchestrator.Reply` | gmail_file_bot.py:162 | the reply step either replies or fails the send; it replies exactly when the value has a CSV form and SMTP accepts the composed message to the sender, and the reply is that message |
| `Orchestrator.Process` | gmail_file_bot.py:153-166 | any reply of a message is composed from the account to that message's sender in the fixed shape |
| `Orchestrator.ReadFailureIsCaught` | gmail_file_bot.py:153-166 | an exception while reading the attachment fails that message with that error |
| `Orchestrator.GenerateFailureIsCaught` | gmail_file_bot.py:153-166 | an exception from the language model fails that message with that error |
| `Orchestrator.GeneratedMeansReplyOrSendFailure` | gmail_file_bot.py:156-162 | once a program exists the message sends the executed result and ends in a reply or a failed send |
| `Orchestrator.ProgramFaultRepliesWithInput` | gmail_file_bot.py:139-162 | when the program faults, the sender is sent the input object as the program left it, and a reply happens exactly when its CSV is sent; if the program did not change that object, this is the dataset as it was read |
| `Orchestrator.UnreadableNeverExecutes` | gmail_file_bot.py:154-159 | a missing or unsupported file name fails at reading, and the outcome is the same whatever the language model and interpreter would do |
| `Orchestrator.ReplyGoesToSender` | gmail_file_bot.py:162 | a reply goes to the sender of the message it answers |
| `Orchestrator.RepliesGoToSenders` | gmail_file_bot.py:150-166 | collected replies are each addressed to a sender of the batch |
| `Orchestrator.RepliesAppend` | gmail_file_bot.py:150-166 | collecting replies over one more outcome appends its reply, if any |
| `Orchestrator.AttemptEach` | gmail_file_bot.py:150-166 | every message is attempted exactly once, in order, its outcome depending only on itself and its position; the outbox lists the replies in order |
| `Orchestrator.RunBatch` | gmail_file_bot.py:148-166 | outcome k is the handler's result for message k, one failure not affecting the others (every step assumed to return); every reply goes to the sender of the message it answers |
| `Orchestrator.Run` | gmail_file_bot.py:148-166 | the run fails before processing anything exactly when fetching fails; otherwise it processes at most five messages, each by the handler, and collects their replies |

## Left out

- Mailbox transport: IMAP connect, login, select, search, fetch and logout. The unseen ids are an input, and fetching plus MIME parsing is the parameter `fetch`.
- MIME and address parsing: `message_from_bytes`, `walk`, `parseaddr` and payload decoding. Each message arrives as pre-parsed parts in walk order. `bytes.decode()` is the parameter `decode`.
- pandas: `read_csv`, `read_excel`, `to_csv` and DataFrame behaviour are parameters. So is the column renderer `render`, which stands for Python's `str(columns)` in the prompt (gmail_file_bot.py:85); Python fixes that rendering, but the model leaves it open. The CSV round-trip of a dataset therefore cannot be stated.
- The language model call is the parameter `infer`. It may return any text or fail.
- Python `exec` is the parameter `exec` and returns a fault or the final namespace, each with the shared input object as the program left it. How strong the empty-builtins namespace really is as a sandbox is not modelled.
- Mail sent by the generated program itself through `send_email` is a side effect the model does not record.
- Exceptions that are not `Exception` subclasses (SystemExit, KeyboardInterrupt) would escape both handlers. The model has no such outcome.
- SMTP connection, STARTTLS and login are one yes/no parameter per composed message.
- Configuration loading and the `print` logging (gmail_file_bot.py:15-25, the error line in `safe_execute` at gmail_file_bot.py:144 and the progress lines in `main` at 151, 157, 164 and 166) are left out. The sending account is a field of `Services`. The model assumes printing succeeds. The emoji lines at 144, 157, 164 and 166 can raise `UnicodeEncodeError` when standard output is not UTF-8. At 144 that would make `safe_execute` raise, contrary to `Sandbox.SafeExecute` never raising. At 166 it would escape `main`'s handler and abort the batch, contrary to `Orchestrator.RunBatch` isolating each message's failure.
- Orchestrator.RunBatch: assumes the generated program and every external call terminate. The source bounds none of them: `exec` (gmail_file_bot.py:140) runs untrusted code, and a loop such as `while True: pass` needs no built-ins. The SMTP session (gmail_file_bot.py:127) and the IMAP connection (gmail_file_bot.py:29) are opened without a timeout. A hang in one message stalls the run, and no later message is attempted, so the per-message isolation holds only when every step returns.
- gmail_auth_setup.py is not part of this model. It is an interactive OAuth flow with no logic of its own.
- Text.Lower: folds only A-Z. Python's `str.lower` also folds non-ASCII letters.
- The oracles are functions of their arguments and the message's batch position. Two calls with the same arguments for the same message get the same answer.
