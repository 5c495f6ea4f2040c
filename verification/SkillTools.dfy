/**
 The tool list of a skill: scanning it from text, where commas and blanks inside parentheses do not
 separate, and narrowing the tools of a turn to those the skill names and the host allows.
 */
module SkillTools {
  import opened Text
  import opened Sorting

  const ALIASES: map<string, string> := map[
    "context.retrieve" := "leeclaw_context_retrieve",
    "knowledge.retrieve" := "leeclaw_context_retrieve",
    "context.get_evidence" := "leeclaw_context_get_evidence",
    "knowledge.get_evidence" := "leeclaw_context_get_evidence",
    "Read" := "read",
    "Write" := "write",
    "Edit" := "edit",
    "Bash" := "exec",
    "WebSearch" := "web_search",
    "WebFetch" := "web_fetch"]

  // ---------- Scanning ----------

  predicate Separates(u: Unicode, c: char) {
    c == ',' || u.isSpace(c)
  }

  predicate IsQuote(c: char) {
    c == '\'' || c == '"'
  }

  function Depth(depth: int, c: char): int {
    if c == '(' then depth + 1 else if c == ')' then depth - 1 else depth
  }

  /** The tokens finished so far, the one being read, and how deep in parentheses it is. */
  datatype Scan = Scan(out: seq<string>, current: string, depth: int)

  function Scanned(u: Unicode, s: Scan, c: char): Scan {
    var depth := Depth(s.depth, c);
    if depth == 0 && Separates(u, c) then Scan(if s.current != "" then s.out + [s.current] else s.out, "", depth)
    else Scan(s.out, s.current + [c], depth)
  }

  function ScanAll(u: Unicode, s: Scan, text: string): Scan {
    if text == "" then s else Scanned(u, ScanAll(u, s, text[..|text| - 1]), text[|text| - 1])
  }

  function Bare(text: string): string {
    var t := if text != "" && text[0] == '[' then text[1..] else text;
    if t != "" && t[|t| - 1] == ']' then t[..|t| - 1] else t
  }

  function Unquoted(u: Unicode, token: string): string {
    var t := if token != "" && IsQuote(token[0]) then token[1..] else token;
    u.Trim(if t != "" && IsQuote(t[|t| - 1]) then t[..|t| - 1] else t)
  }

  function Cleaned(u: Unicode, tokens: seq<string>): seq<string> {
    if tokens == [] then []
    else
      var init, t := Cleaned(u, tokens[..|tokens| - 1]), Unquoted(u, tokens[|tokens| - 1]);
      if t != "" then init + [t] else init
  }

  function Split(u: Unicode, text: string): seq<string> {
    var s := ScanAll(u, Scan([], "", 0), Bare(u.Trim(text)));
    Cleaned(u, if s.current != "" then s.out + [s.current] else s.out)
  }

  method SplitAllowedTools(u: Unicode, text: string) returns (tools: seq<string>)
    ensures tools == Split(u, text)
  {
    hide Bare;
    hide Unquoted;
    var source := Bare(u.Trim(text));
    var out: seq<string>, current, depth := [], "", 0;
    for i := 0 to |source|
      invariant Scan(out, current, depth) == ScanAll(u, Scan([], "", 0), source[..i])
    {
      assert source[..i + 1][..i] == source[..i];
      var c := source[i];
      if c == '(' {
        depth := depth + 1;
      }
      if c == ')' {
        depth := depth - 1;
      }
      if depth == 0 && (c == ',' || u.isSpace(c)) {
        if current != "" {
          out := out + [current];
          current := "";
        }
        continue;
      }
      current := current + [c];
    }
    assert source[..|source|] == source;
    if current != "" {
      out := out + [current];
    }
    tools := [];
    for i := 0 to |out|
      invariant tools == Cleaned(u, out[..i])
    {
      assert out[..i + 1][..i] == out[..i];
      var t := Unquoted(u, out[i]);
      if t != "" {
        tools := tools + [t];
      }
    }
    assert out[..|out|] == out;
  }

  // ---------- Narrowing ----------

  function Mapped(token: string): string {
    if token in ALIASES then ALIASES[token] else token
  }

  function Narrowed(u: Unicode, allows: string -> bool, raw: seq<string>): seq<string> {
    if raw == [] then []
    else
      var init, token := Narrowed(u, allows, raw[..|raw| - 1]), u.Trim(raw[|raw| - 1]);
      if token == "" || '(' in token || !allows(Mapped(token)) || Mapped(token) in init then init
      else init + [Mapped(token)]
  }

  method NormalizeAllowedTools(u: Unicode, allows: string -> bool, raw: seq<string>) returns (result: seq<string>)
    ensures result == Narrowed(u, allows, raw)
  {
    hide Mapped;
    result := [];
    for i := 0 to |raw|
      invariant result == Narrowed(u, allows, raw[..i])
    {
      assert raw[..i + 1][..i] == raw[..i];
      var token := u.Trim(raw[i]);
      if token == "" || '(' in token {
        continue;
      }
      var mapped := Mapped(token);
      if !allows(mapped) {
        continue;
      }
      if mapped !in result {
        result := result + [mapped];
      }
    }
    assert raw[..|raw|] == raw;
  }

  /** A tool is granted exactly when it is allowed and some unscoped token stands for it; none is granted twice. */
  lemma {:induction false} NarrowedExactly(u: Unicode, allows: string -> bool, raw: seq<string>)
    ensures NoRepeats(Narrowed(u, allows, raw))
    ensures forall tool :: tool in Narrowed(u, allows, raw) <==>
              allows(tool) && exists i :: 0 <= i < |raw| && Grants(u, raw[i], tool)
  {
    hide Mapped;
    if raw != [] {
      NarrowedExactly(u, allows, raw[..|raw| - 1]);
    }
  }

  /** The token names the tool, itself or by alias, without a scope in parentheses. */
  predicate Grants(u: Unicode, raw: string, tool: string) {
    u.Trim(raw) != "" && '(' !in u.Trim(raw) && Mapped(u.Trim(raw)) == tool
  }

  /** The words that name the host's tool. */
  function WordsFor(tool: string): seq<string> {
    if tool == "leeclaw_context_retrieve" then [tool, "context.retrieve", "knowledge.retrieve"]
    else if tool == "leeclaw_context_get_evidence" then [tool, "context.get_evidence", "knowledge.get_evidence"]
    else if tool == "exec" then [tool, "Bash"]
    else if tool == "read" then [tool, "Read"]
    else if tool == "write" then [tool, "Write"]
    else if tool == "edit" then [tool, "Edit"]
    else if tool == "web_search" then [tool, "WebSearch"]
    else if tool == "web_fetch" then [tool, "WebFetch"]
    else if tool in ALIASES then []
    else [tool]
  }

  /** Every word names one tool, and what it names is named by no other word than these. */
  lemma WordsNameTools(word: string, tool: string)
    ensures Mapped(word) == tool <==> word in WordsFor(tool)
    ensures Mapped(Mapped(word)) == Mapped(word)
  {
    FirstLetters(word);
    FirstLetters(tool);
    FirstLetters(Mapped(word));
  }

  lemma FirstLetters(word: string)
    ensures word in ["exec", "edit"] ==> word !in ALIASES && word[1] == if word == "exec" then 'x' else 'd'
    ensures word in ["read", "write"] ==> word !in ALIASES && word[0] == if word == "read" then 'r' else 'w'
    ensures word in ["web_search", "web_fetch"] ==> word !in ALIASES && |word| == if word == "web_search" then 10 else 9
    ensures word == "leeclaw_context_retrieve" || word == "leeclaw_context_get_evidence" ==>
              word !in ALIASES && word[0] == 'l' && |word| == if word == "leeclaw_context_retrieve" then 24 else 28
    ensures word in ALIASES ==> word[0] in ['c', 'k', 'R', 'W', 'E', 'B']
  {
    assert "context.retrieve"[0] == 'c' && "context.get_evidence"[0] == 'c';
    assert "knowledge.retrieve"[0] == 'k' && "knowledge.get_evidence"[0] == 'k';
    assert "Read"[0] == 'R' && "Write"[0] == 'W' && "WebSearch"[0] == 'W' && "WebFetch"[0] == 'W';
    assert "Edit"[0] == 'E' && "Bash"[0] == 'B';
  }

  // ---------- Reading back a written list ----------

  /** From the given depth the text comes back to depth zero, and at depth zero it never separates. */
  predicate Closed(u: Unicode, text: string, depth: int) {
    if text == "" then depth == 0
    else
      var d := Depth(depth, text[0]);
      (d == 0 ==> !Separates(u, text[0])) && Closed(u, text[1..], d)
  }

  predicate Gap(u: Unicode, text: string) {
    text != "" && forall i :: 0 <= i < |text| ==> Separates(u, text[i]) && text[i] != '(' && text[i] != ')'
  }

  predicate StartsWith(text: string, c: char) {
    text != "" && text[0] == c
  }

  predicate EndsWith(text: string, c: char) {
    text != "" && text[|text| - 1] == c
  }

  /** A token that can be written down as it is. */
  ghost predicate Plain(u: Unicode, token: string) {
    && token != "" && Trimmed(u, token) && Closed(u, token, 0)
    && !IsQuote(token[0]) && !IsQuote(token[|token| - 1])
  }

  /** The tokens with a gap after each but the last. */
  function Written(tokens: seq<string>, gap: string): string {
    if tokens == [] then "" else if |tokens| == 1 then tokens[0]
    else Written(tokens[..|tokens| - 1], gap) + gap + tokens[|tokens| - 1]
  }

  lemma {:induction false} ScanConcat(u: Unicode, s: Scan, a: string, b: string)
    ensures ScanAll(u, s, a + b) == ScanAll(u, ScanAll(u, s, a), b)
  {
    hide Scanned;
    if b == "" {
      assert a + b == a;
    } else {
      assert (a + b)[..|a + b| - 1] == a + b[..|b| - 1];
      ScanConcat(u, s, a, b[..|b| - 1]);
    }
  }

  lemma ScanOne(u: Unicode, s: Scan, text: string)
    requires text != ""
    ensures ScanAll(u, s, text) == ScanAll(u, Scanned(u, s, text[0]), text[1..])
  {
    hide Scanned;
    assert text == [text[0]] + text[1..];
    ScanConcat(u, s, [text[0]], text[1..]);
    assert [text[0]][..0] == "";
    assert ScanAll(u, s, [text[0]]) == Scanned(u, s, text[0]);
  }

  lemma {:induction false} ScanClosed(u: Unicode, s: Scan, text: string)
    requires Closed(u, text, s.depth)
    ensures ScanAll(u, s, text) == Scan(s.out, s.current + text, 0)
    decreases |text|
  {
    if text == "" {
      assert s.current + text == s.current;
    } else {
      ScanOne(u, s, text);
      var next := Scanned(u, s, text[0]);
      ScanClosed(u, next, text[1..]);
      assert s.current + text == s.current + [text[0]] + text[1..];
    }
  }

  lemma {:induction false} ScanGap(u: Unicode, out: seq<string>, text: string)
    requires text == "" || Gap(u, text)
    ensures ScanAll(u, Scan(out, "", 0), text) == Scan(out, "", 0)
  {
    if text != "" {
      ScanGap(u, out, text[..|text| - 1]);
    }
  }

  lemma ScanGapAfterToken(u: Unicode, out: seq<string>, token: string, gap: string)
    requires token != "" && Gap(u, gap)
    ensures ScanAll(u, Scan(out, token, 0), gap) == Scan(out + [token], "", 0)
  {
    ScanOne(u, Scan(out, token, 0), gap);
    ScanGap(u, out + [token], gap[1..]);
  }

  lemma {:induction false} ScanWritten(u: Unicode, tokens: seq<string>, gap: string)
    requires tokens != [] && Gap(u, gap) && forall i :: 0 <= i < |tokens| ==> Plain(u, tokens[i])
    ensures ScanAll(u, Scan([], "", 0), Written(tokens, gap)) == Scan(tokens[..|tokens| - 1], tokens[|tokens| - 1], 0)
  {
    hide Closed;
    hide Gap;
    hide IsQuote;
    hide ScanAll;
    hide Trimmed;
    var start := Scan([], "", 0);
    var last := tokens[|tokens| - 1];
    assert Plain(u, last);
    if |tokens| == 1 {
      ScanClosed(u, start, last);
      assert "" + last == last;
    } else {
      var init := tokens[..|tokens| - 1];
      var prior := init[|init| - 1];
      ScanWritten(u, init, gap);
      ScanConcat(u, start, Written(init, gap), gap);
      assert prior == tokens[|tokens| - 2];
      ScanGapAfterToken(u, init[..|init| - 1], prior, gap);
      assert init[..|init| - 1] + [prior] == init;
      ScanConcat(u, start, Written(init, gap) + gap, last);
      ScanClosed(u, Scan(init, "", 0), last);
      assert "" + last == last;
    }
  }

  lemma {:induction false} CleanedPlain(u: Unicode, tokens: seq<string>)
    requires forall i :: 0 <= i < |tokens| ==> Plain(u, tokens[i])
    ensures Cleaned(u, tokens) == tokens
  {
    if tokens != [] {
      var init, t := tokens[..|tokens| - 1], tokens[|tokens| - 1];
      CleanedPlain(u, init);
      TrimmedIsFixed(u, t);
      assert tokens == init + [t];
    }
  }

  lemma {:induction false} WrittenEnds(tokens: seq<string>, gap: string)
    requires tokens != [] && forall i :: 0 <= i < |tokens| ==> tokens[i] != ""
    ensures var text := Written(tokens, gap);
            && text != "" && text[0] == tokens[0][0]
            && text[|text| - 1] == tokens[|tokens| - 1][|tokens[|tokens| - 1]| - 1]
  {
    if |tokens| > 1 {
      WrittenEnds(tokens[..|tokens| - 1], gap);
    }
  }

  /** Surrounding brackets are taken off a text that does not itself begin or end with one outermost. */
  lemma BareText(u: Unicode, text: string, bracketed: bool)
    requires text != "" && Trimmed(u, text)
    requires if bracketed then !u.isSpace('[') && !u.isSpace(']') else !StartsWith(text, '[') && !EndsWith(text, ']')
    ensures Bare(u.Trim(if bracketed then "[" + text + "]" else text)) == text
  {
    var whole := if bracketed then "[" + text + "]" else text;
    if bracketed {
      assert whole[0] == '[' && whole[|whole| - 1] == ']';
      assert whole[1..] == text + "]";
      assert (text + "]")[..|text|] == text;
    }
    TrimmedIsFixed(u, whole);
  }

  /** Round trip: plain tokens written with gaps between them, in brackets or not, are read back as they are. */
  lemma WrittenTokensAreReadBack(u: Unicode, tokens: seq<string>, gap: string, bracketed: bool)
    requires tokens != [] && Gap(u, gap) && forall i :: 0 <= i < |tokens| ==> Plain(u, tokens[i])
    requires if bracketed then !u.isSpace('[') && !u.isSpace(']')
             else !StartsWith(tokens[0], '[') && !EndsWith(tokens[|tokens| - 1], ']')
    ensures Split(u, if bracketed then "[" + Written(tokens, gap) + "]" else Written(tokens, gap)) == tokens
  {
    hide Written;
    var text := Written(tokens, gap);
    WrittenText(u, tokens, gap);
    BareText(u, text, bracketed);
    ScanWritten(u, tokens, gap);
    assert tokens == tokens[..|tokens| - 1] + [tokens[|tokens| - 1]];
    CleanedPlain(u, tokens);
  }

  lemma WrittenText(u: Unicode, tokens: seq<string>, gap: string)
    requires tokens != [] && forall i :: 0 <= i < |tokens| ==> Plain(u, tokens[i])
    ensures tokens[|tokens| - 1] != ""
    ensures var text := Written(tokens, gap);
            && text != "" && Trimmed(u, text)
            && (StartsWith(text, '[') <==> StartsWith(tokens[0], '['))
            && (EndsWith(text, ']') <==> EndsWith(tokens[|tokens| - 1], ']'))
  {
    hide Written;
    hide Closed;
    assert Plain(u, tokens[0]) && Plain(u, tokens[|tokens| - 1]);
    WrittenEnds(tokens, gap);
  }

  /**
   A written list grants exactly what its unscoped tokens name within the host's authority. A scoped token
   such as a command pattern, with any commas and blanks inside its parentheses, grants nothing.
   */
  lemma WrittenListGrantsExactly(u: Unicode, allows: string -> bool, tokens: seq<string>, gap: string, tool: string)
    requires tokens != [] && Gap(u, gap) && forall i :: 0 <= i < |tokens| ==> Plain(u, tokens[i])
    requires !StartsWith(tokens[0], '[') && !EndsWith(tokens[|tokens| - 1], ']')
    ensures tool in Narrowed(u, allows, Split(u, Written(tokens, gap))) <==>
              allows(tool) && exists i :: 0 <= i < |tokens| && '(' !in tokens[i] && Mapped(tokens[i]) == tool
  {
    hide Split;
    hide Narrowed;
    hide Mapped;
    hide Closed;
    WrittenTokensAreReadBack(u, tokens, gap, false);
    NarrowedExactly(u, allows, tokens);
    forall i | 0 <= i < |tokens|
      ensures u.Trim(tokens[i]) == tokens[i]
    {
      assert Plain(u, tokens[i]);
      TrimmedIsFixed(u, tokens[i]);
    }
    if i :| 0 <= i < |tokens| && '(' !in tokens[i] && Mapped(tokens[i]) == tool {
      assert Plain(u, tokens[i]);
      assert Grants(u, tokens[i], tool);
    }
    if i :| 0 <= i < |tokens| && Grants(u, tokens[i], tool) {
      assert '(' !in tokens[i] && Mapped(tokens[i]) == tool;
    }
  }

  /** A token in quotes, of one kind or mixed, is read without them. */
  lemma QuotedTokenIsReadBack(u: Unicode, token: string, open: char, close: char)
    requires Plain(u, token) && IsQuote(open) && IsQuote(close) && !u.isSpace(open) && !u.isSpace(close)
    ensures Split(u, [open] + token + [close]) == [token]
  {
    var text := [open] + token + [close];
    assert text[0] == open && text[|text| - 1] == close;
    QuotedIsClosed(u, token, open, close);
    ClosedIsOneToken(u, text);
    QuotesComeOff(u, token, open, close);
    OneCleaned(u, text);
    hide Split;
    hide Unquoted;
    hide Cleaned;
    hide Closed;
  }

  lemma ClosedIsOneToken(u: Unicode, text: string)
    requires text != "" && Trimmed(u, text) && Closed(u, text, 0) && text[0] != '[' && text[|text| - 1] != ']'
    ensures Split(u, text) == Cleaned(u, [text])
  {
    TrimmedIsFixed(u, text);
    ScanClosed(u, Scan([], "", 0), text);
    hide Closed;
    hide ScanAll;
    hide Cleaned;
    hide Unicode.Trim;
    assert "" + text == text;
    assert [] + [text] == [text];
  }

  lemma OneCleaned(u: Unicode, token: string)
    ensures Cleaned(u, [token]) == if Unquoted(u, token) != "" then [Unquoted(u, token)] else []
  {
    hide Unquoted;
    assert [token][..0] == [];
  }

  lemma QuotedIsClosed(u: Unicode, token: string, open: char, close: char)
    requires Closed(u, token, 0) && IsQuote(open) && IsQuote(close) && !u.isSpace(open) && !u.isSpace(close)
    ensures Closed(u, [open] + token + [close], 0)
  {
    var text := [open] + token + [close];
    assert [close][1..] == "";
    assert Closed(u, [close], 0);
    ClosedThen(u, token, [close], 0);
    assert text[1..] == token + [close];
  }

  lemma QuotesComeOff(u: Unicode, token: string, open: char, close: char)
    requires token != "" && Trimmed(u, token) && IsQuote(open) && IsQuote(close)
    ensures Unquoted(u, [open] + token + [close]) == token
  {
    var text := [open] + token + [close];
    assert text[1..][..|text[1..]| - 1] == token;
    TrimmedIsFixed(u, token);
    hide Unicode.Trim;
  }

  lemma {:induction false} ClosedThen(u: Unicode, a: string, b: string, depth: int)
    requires Closed(u, a, depth) && Closed(u, b, 0)
    ensures Closed(u, a + b, depth)
    decreases |a|
  {
    if a == "" {
      assert a + b == b;
    } else {
      assert (a + b)[1..] == a[1..] + b;
      ClosedThen(u, a[1..], b, Depth(depth, a[0]));
    }
  }
}
