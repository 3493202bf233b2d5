/** `get_generated_code`: the prompt sent to the language model and the
    normalisation of its answer into bare program text. */
module Synthesizer {
  import opened Base
  import opened Text

  /** The language model: the batch position of the message being served
      and the prompt in, a completion or a raised error out. */
  type Inference = (nat, string) -> Result<string, string>

  /** `str(columns)`: how a Python list of column names prints. */
  type ColumnRenderer = seq<string> -> string

  const Fence := "```"

  const PromptHead := "\nYou are a data assistant.\nThe dataset has columns: "
  const PromptTools :=
    "\n\nYou have access to:\n- df: the pandas DataFrame\n- send_email(df, to_emails): function that emails the DataFrame as CSV to to_emails\n\nWrite Python code to apply these instructions:\n"
  const RulesHeader := "\n\nRules:\n"
  const RuleNoImports := "- No imports."
  const RulePlainCode := "- Only valid Python code (no markdown formatting)."
  const RuleNoFiles := "- No file I/O (no open(), no save())."
  const RuleNoPrint := "- Do not use print statements."
  const PromptTail := "\n\nYour code:\n"

  /** The instruction as the prompt quotes it. */
  function Quoted(instruction: string): string {
    "\"" + instruction + "\""
  }

  /** The prompt: the rendered column list, the user's instruction verbatim
      between double quotes, and the rules the program must follow. */
  function BuildPrompt(instruction: string, columns: string): (p: string)
    ensures Contains(p, columns)
    ensures Contains(p, Quoted(instruction))
    ensures Contains(p, PromptTools)
    ensures Contains(p, RuleNoImports) && Contains(p, RulePlainCode)
    ensures Contains(p, RuleNoFiles) && Contains(p, RuleNoPrint)
    ensures StartsWith(p, PromptHead)
  {
    var rules := RuleNoImports + "\n" + RulePlainCode + "\n" + RuleNoFiles + "\n" + RuleNoPrint;
    var p := PromptHead + columns + PromptTools + Quoted(instruction) + RulesHeader + rules + PromptTail;
    PromptContents(PromptHead, columns, PromptTools, Quoted(instruction), RulesHeader, rules, PromptTail);
    RulesContents();
    ContainsWithin(p, rules, RuleNoImports);
    ContainsWithin(p, rules, RulePlainCode);
    ContainsWithin(p, rules, RuleNoFiles);
    ContainsWithin(p, rules, RuleNoPrint);
    p
  }

  lemma PromptContents(a: string, b: string, c: string, d: string, e: string, f: string, g: string)
    ensures var p := a + b + c + d + e + f + g;
            Contains(p, b) && Contains(p, c) && Contains(p, d) && Contains(p, f) && StartsWith(p, a)
  {
    var p := a + b + c + d + e + f + g;
    assert p == a + b + (c + d + e + f + g);
    ContainsMiddle(a, b, c + d + e + f + g);
    assert p == (a + b) + c + (d + e + f + g);
    ContainsMiddle(a + b, c, d + e + f + g);
    assert p == (a + b + c) + d + (e + f + g);
    ContainsMiddle(a + b + c, d, e + f + g);
    assert p == (a + b + c + d + e) + f + g;
    ContainsMiddle(a + b + c + d + e, f, g);
    assert p[..|a|] == a;
  }

  lemma RulesContents()
    ensures var rules := RuleNoImports + "\n" + RulePlainCode + "\n" + RuleNoFiles + "\n" + RuleNoPrint;
            Contains(rules, RuleNoImports) && Contains(rules, RulePlainCode)
            && Contains(rules, RuleNoFiles) && Contains(rules, RuleNoPrint)
  {
    ListContents(RuleNoImports, RulePlainCode, RuleNoFiles, RuleNoPrint, "\n");
  }

  lemma ListContents(a: string, b: string, c: string, d: string, sep: string)
    ensures var p := a + sep + b + sep + c + sep + d;
            Contains(p, a) && Contains(p, b) && Contains(p, c) && Contains(p, d)
  {
    var p := a + sep + b + sep + c + sep + d;
    assert p == [] + a + (sep + b + sep + c + sep + d);
    ContainsMiddle([], a, sep + b + sep + c + sep + d);
    assert p == (a + sep) + b + (sep + c + sep + d);
    ContainsMiddle(a + sep, b, sep + c + sep + d);
    assert p == (a + sep + b + sep) + c + (sep + d);
    ContainsMiddle(a + sep + b + sep, c, sep + d);
    assert p == (a + sep + b + sep + c + sep) + d + [];
    ContainsMiddle(a + sep + b + sep + c + sep, d, []);
  }

  lemma ContainsWithin(s: string, t: string, u: string)
    requires Contains(s, t) && Contains(t, u)
    ensures Contains(s, u)
  {
    var i :| OccursAt(s, t, i);
    var j :| OccursAt(t, u, j);
    forall k | 0 <= k < |u| ensures s[i + j + k] == u[k] {
      assert u[k] == t[j + k] == s[i + j + k];
    }
    assert s[i + j..i + j + |u|] == u;
    assert OccursAt(s, u, i + j);
  }

  /** Python's `xs[1:-1]`: everything but the first and last element. */
  function Interior<T>(xs: seq<T>): (ys: seq<T>)
    ensures |xs| <= 2 ==> ys == []
    ensures |xs| > 2 ==> |ys| == |xs| - 2 && forall k :: 0 <= k < |ys| ==> ys[k] == xs[k + 1]
  {
    if |xs| <= 2 then [] else xs[1..|xs| - 1]
  }

  /** Fence removal on the stripped response: a text that opens with a
      triple back-tick loses its first and its last line. */
  function Unfence(code: string): (r: string)
    ensures !StartsWith(code, Fence) ==> r == code
  {
    if StartsWith(code, Fence) then Join(Interior(Split(code))) else code
  }

  /** The post-processing of the model's answer: strip, then unfence. */
  function PostProcess(response: string): (code: string)
    ensures !StartsWith(Strip(response), Fence) ==> code == Strip(response)
  {
    Unfence(Strip(response))
  }

  /** A fenced text is the text between its first and its last newline. */
  lemma {:induction false} UnfenceKeepsInterior(code: string, i: nat, j: nat)
    requires StartsWith(code, Fence)
    requires i < j < |code| && code[i] == Newline && code[j] == Newline
    requires Newline !in code[..i] && Newline !in code[j + 1..]
    ensures Unfence(code) == code[i + 1..j]
  {
    var head, m, tail := code[..i], code[i + 1..j], code[j + 1..];
    var rest := code[i + 1..];
    assert code == head + [Newline] + rest;
    assert rest == m + [Newline] + tail;
    SplitAfterLine(head, rest);
    SplitBeforeLastLine(m, tail);
    var lines := [head] + (Split(m) + [tail]);
    assert Split(code) == lines;
    assert Interior(lines) == Split(m);
    JoinSplit(m);
  }

  /** With at most one newline a fenced text unfences to nothing. */
  lemma {:induction false} UnfenceShortIsEmpty(code: string)
    requires StartsWith(code, Fence)
    requires forall i, j :: 0 <= i < j < |code| && code[i] == Newline ==> code[j] != Newline
    ensures Unfence(code) == ""
  {
    if Newline in code {
      var i :| 0 <= i < |code| && code[i] == Newline;
      var head, tail := code[..i], code[i + 1..];
      assert code == head + [Newline] + tail;
      assert Newline !in head by {
        forall k | 0 <= k < |head| ensures head[k] != Newline {
          assert head[k] == code[k];
        }
      }
      SplitAfterLine(head, tail);
      SplitSingleLine(tail);
      assert |Split(code)| == 2;
    } else {
      SplitSingleLine(code);
    }
  }

  /** A response written as newline-free lines whose first line opens a
      fence, possibly padded with whitespace, yields exactly its inner lines. */
  lemma {:induction false} PostProcessFenced(pre: string, lines: seq<string>, post: string)
    requires |lines| >= 2 && NoNewlines(lines) && StartsWith(lines[0], Fence)
    requires AllSpace(pre) && AllSpace(post) && NoEdgeSpace(Join(lines))
    ensures PostProcess(pre + Join(lines) + post) == Join(lines[1..|lines| - 1])
  {
    var code := Join(lines);
    StripPadded(pre, code, post);
    assert code == lines[0] + [Newline] + Join(lines[1..]);
    assert code[..|Fence|] == lines[0][..|Fence|];
    assert StartsWith(code, Fence);
    SplitJoin(lines);
    assert Unfence(code) == Join(Interior(lines));
  }

  /** `get_generated_code(email_body, columns)`: an inference failure
      propagates; otherwise the normalised completion is returned. */
  function GenerateCode(k: nat, instruction: string, columns: seq<string>,
                        render: ColumnRenderer, infer: Inference): (r: Result<string, string>)
    ensures infer(k, BuildPrompt(instruction, render(columns))).Err? <==> r.Err?
    ensures r.Err? ==> infer(k, BuildPrompt(instruction, render(columns))) == Err(r.error)
    ensures r.Ok? ==> exists response ::
              infer(k, BuildPrompt(instruction, render(columns))) == Ok(response)
              && r.value == PostProcess(response)
  {
    match infer(k, BuildPrompt(instruction, render(columns)))
    case Err(e) => Err(e)
    case Ok(response) => Ok(PostProcess(response))
  }
}
