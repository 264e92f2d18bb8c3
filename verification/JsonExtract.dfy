/** Extracting the outermost JSON block from a model's reply: markdown fences first, then brace
    counting with string and escape state. */
module JsonExtract {
  import opened Options
  import opened Text

  const FENCE := "```"

  predicate IsAt(text: string, pat: string, i: nat) {
    i + |pat| <= |text| && text[i..i + |pat|] == pat
  }

  /** The first index at or after `from` where `pat` occurs. */
  function Find(text: string, pat: string, from: nat): (r: Option<nat>)
    ensures r.Some? ==> from <= r.value && IsAt(text, pat, r.value)
    ensures r.Some? ==> forall i :: from <= i < r.value ==> !IsAt(text, pat, i)
    ensures r.None? ==> forall i: nat :: from <= i ==> !IsAt(text, pat, i)
    decreases |text| - from
  {
    if from + |pat| > |text| then None
    else if text[from..from + |pat|] == pat then Some(from)
    else
      assert !IsAt(text, pat, from);
      Find(text, pat, from + 1)
  }

  // ---- the brace counter -----------------------------------------------------------------

  datatype Scan = Scan(depth: int, inString: bool, escape: bool)

  const START := Scan(0, false, false)

  function Advance(s: Scan, ch: char): Scan {
    if s.escape then s.(escape := false)
    else if ch == '\\' then s.(escape := true)
    else if ch == '"' then s.(inString := !s.inString)
    else if s.inString then s
    else if ch == '{' then s.(depth := s.depth + 1)
    else if ch == '}' then s.(depth := s.depth - 1)
    else s
  }

  /** This character brings the depth back to zero. */
  predicate Closes(s: Scan, ch: char) {
    !s.escape && !s.inString && ch == '}' && s.depth == 1
  }

  function Plus(r: Option<nat>, k: nat): Option<nat> {
    if r.Some? then Some(r.value + k) else None
  }

  function Close(s: Scan, text: string): (r: Option<nat>)
    ensures r.Some? ==> r.value < |text|
    decreases |text|
  {
    if text == "" then None
    else if Closes(s, text[0]) then Some(0)
    else
      Plus(Close(Advance(s, text[0]), text[1..]), 1)
  }

  lemma CloseAt(s: Scan, text: string, i: nat)
    requires i < |text|
    ensures Close(s, text[i..]) ==
            if Closes(s, text[i]) then Some(0) else Plus(Close(Advance(s, text[i]), text[i + 1..]), 1)
  {
    assert text[i..][1..] == text[i + 1..];
  }

  lemma CloseAtEnd(s: Scan, text: string)
    ensures Close(s, text[|text|..]) == None
  {
  }

  function BraceBlock(text: string): Option<string> {
    var start := IndexOf(text, '{');
    match Close(START, text[start..])
    case None => None
    case Some(n) => Some(text[start..start + n + 1])
  }

  // ---- the fence -------------------------------------------------------------------------

  predicate IsSpace(c: char) {
    || '\t' <= c <= '\r' || '\U{1c}' <= c <= ' ' || c == '\U{85}' || c == '\U{a0}' || c == '\U{1680}'
    || '\U{2000}' <= c <= '\U{200a}' || c == '\U{2028}' || c == '\U{2029}' || c == '\U{202f}'
    || c == '\U{205f}' || c == '\U{3000}'
  }

  function Strip(s: string): string {
    if s != "" && IsSpace(s[0]) then Strip(s[1..])
    else if s != "" && IsSpace(s[|s| - 1]) then Strip(s[..|s| - 1])
    else s
  }

  function LowerChar(c: char): char {
    if 'A' <= c <= 'Z' then (c as int + 32) as char else c
  }

  function Lower(s: string): string {
    seq(|s|, i requires 0 <= i < |s| => LowerChar(s[i]))
  }

  const LABELS: set<string> := {"json", "python", "py"}

  /** The fenced text, without its language line. */
  function Unlabelled(inner: string): (r: string)
    ensures |r| <= |inner|
  {
    var nl := IndexOf(inner, '\n');
    if nl < |inner| && Lower(Strip(inner[..nl])) in LABELS then inner[nl + 1..] else inner
  }

  datatype Span = Span(from: nat, to: nat)

  /** What stands between the first two fences, if there are two. */
  function FenceSpan(text: string): (r: Option<Span>)
    ensures r.Some? ==> 3 <= r.value.from <= r.value.to && r.value.to + 3 <= |text|
  {
    match Find(text, FENCE, 0)
    case None => None
    case Some(p) =>
      match Find(text, FENCE, p + 3)
      case None => None
      case Some(e) => Some(Span(p + 3, e))
  }

  function Fenced(text: string): (r: Option<string>)
    ensures r.Some? ==> |r.value| < |text|
  {
    match FenceSpan(text)
    case None => None
    case Some(f) => Some(Unlabelled(text[f.from..f.to]))
  }

  function Extract(text: string): Option<string>
    decreases |text|
  {
    var fenced := Fenced(text);
    if fenced.Some? && Extract(fenced.value).Some? then Extract(fenced.value) else BraceBlock(text)
  }

  /** The extractor as it runs. */
  method ExtractJsonBlock(text: string) returns (block: Option<string>)
    ensures block == Extract(text)
    decreases |text|
  {
    var span := FenceSpan(text);
    if span.Some? {
      var inner := Unlabelled(text[span.value.from..span.value.to]);
      var result := ExtractJsonBlock(inner);
      if result != None {
        return result;
      }
    }
    block := CountBraces(text);
  }

  method CountBraces(text: string) returns (block: Option<string>)
    ensures block == BraceBlock(text)
  {
    hide IndexOf, Close;
    var start := IndexOf(text, '{');
    ghost var end := Close(START, text[start..]);
    var depth, inString, escapeNext := 0, false, false;
    var i := start;
    while i < |text|
      invariant start <= i <= |text|
      invariant end == Plus(Close(Scan(depth, inString, escapeNext), text[i..]), i - start)
    {
      var ch := text[i];
      CloseAt(Scan(depth, inString, escapeNext), text, i);
      i := i + 1;
      if escapeNext {
        escapeNext := false;
        continue;
      }
      if ch == '\\' {
        escapeNext := true;
        continue;
      }
      if ch == '"' {
        inString := !inString;
        continue;
      }
      if inString {
        continue;
      }
      if ch == '{' {
        depth := depth + 1;
      } else if ch == '}' {
        depth := depth - 1;
        if depth == 0 {
          return Some(text[start..i]);
        }
      }
    }
    CloseAtEnd(Scan(depth, inString, escapeNext), text);
    return None;
  }

  // ---- every result is a balanced block ----------------------------------------------------

  function After(s: Scan, text: string): Scan {
    if text == "" then s else Advance(After(s, text[..|text| - 1]), text[|text| - 1])
  }

  /** The text opens with a brace and first comes back to depth zero, outside strings and
      escapes, with its last character. */
  ghost predicate Block(r: string) {
    && |r| >= 2 && r[0] == '{' && r[|r| - 1] == '}'
    && (forall k :: 0 < k < |r| ==> After(START, r[..k]).depth > 0)
    && After(START, r) == START
  }

  lemma {:induction false} AfterFront(s: Scan, text: string)
    requires text != ""
    ensures After(s, text) == After(Advance(s, text[0]), text[1..])
  {
    if |text| == 1 {
      assert text[..0] == "" && text[1..] == "";
    } else {
      AfterFront(s, text[..|text| - 1]);
      assert text[..|text| - 1][1..] == text[1..][..|text| - 2];
    }
  }

  /** Up to its closing character a scan stays at positive depth. */
  lemma {:induction false} CloseFirst(s: Scan, text: string, k: nat)
    requires s.depth > 0 && Close(s, text).Some? && k <= Close(s, text).value
    ensures After(s, text[..k]).depth > 0
    ensures k == Close(s, text).value ==> Closes(After(s, text[..k]), text[k])
    decreases k
  {
    if k > 0 {
      CloseFirst(Advance(s, text[0]), text[1..], k - 1);
      AfterFront(s, text[..k]);
      assert text[..k][1..] == text[1..][..k - 1];
    } else {
      assert text[..0] == "";
    }
  }

  /** Behind an opening brace the scan is at depth one. */
  lemma CloseOpened(rest: string)
    requires rest != "" && rest[0] == '{'
    ensures Close(START, rest) == Plus(Close(Scan(1, false, false), rest[1..]), 1)
  {
  }

  /** Inside the block the depth is positive, and the character behind the inside closes it. */
  lemma InsideBlock(rest: string, n: nat, k: nat)
    requires rest != "" && rest[0] == '{' && Close(Scan(1, false, false), rest[1..]) == Some(n - 1)
    requires 0 < k <= n < |rest|
    ensures After(START, rest[..k]).depth > 0
    ensures k == n ==> Closes(After(START, rest[..k]), rest[k])
  {
    hide Close, After;
    CloseFirst(Scan(1, false, false), rest[1..], k - 1);
    AfterFront(START, rest[..k]);
    assert rest[..k][1..] == rest[1..][..k - 1];
  }

  lemma ClosedIsBlock(rest: string)
    requires rest != "" && rest[0] == '{' && Close(START, rest).Some?
    ensures Block(rest[..Close(START, rest).value + 1])
  {
    hide Close;
    CloseOpened(rest);
    var n := Close(START, rest).value;
    var r := rest[..n + 1];
    forall k | 0 < k <= n
      ensures After(START, r[..k]).depth > 0
      ensures k == n ==> Closes(After(START, r[..k]), r[k])
    {
      InsideBlock(rest, n, k);
      assert r[..k] == rest[..k];
    }
    assert r[..|r| - 1] == r[..n];
  }

  lemma BraceBlockIsBlock(text: string)
    requires BraceBlock(text).Some?
    ensures Block(BraceBlock(text).value)
    ensures IsAt(text, BraceBlock(text).value, IndexOf(text, '{'))
  {
    var start := IndexOf(text, '{');
    var rest := text[start..];
    ClosedIsBlock(rest);
    assert rest[..|BraceBlock(text).value|] == BraceBlock(text).value;
  }

  lemma FencedIsInside(text: string) returns (i: nat)
    requires Fenced(text).Some?
    ensures IsAt(text, Fenced(text).value, i)
  {
    var f := FenceSpan(text).value;
    i := f.to - |Fenced(text).value|;
  }

  lemma Nested(text: string, mid: string, r: string, i: nat, j: nat)
    requires IsAt(text, mid, i) && IsAt(mid, r, j)
    ensures IsAt(text, r, i + j)
  {
    forall k | 0 <= k < |r| ensures text[i + j + k] == r[k] {
      assert text[i..i + |mid|][j + k] == mid[j + k] && mid[j..j + |r|][k] == r[k];
    }
  }

  /** Whatever the text, a result is a contiguous piece of it and a balanced block. */
  lemma {:induction false} ResultIsBlock(text: string) returns (i: nat)
    requires Extract(text).Some?
    ensures Block(Extract(text).value)
    ensures IsAt(text, Extract(text).value, i)
    decreases |text|
  {
    var fenced := Fenced(text);
    if fenced.Some? && Extract(fenced.value).Some? {
      var at := FencedIsInside(text);
      var within := ResultIsBlock(fenced.value);
      Nested(text, fenced.value, Extract(text).value, at, within);
      i := at + within;
    } else {
      BraceBlockIsBlock(text);
      i := IndexOf(text, '{');
    }
  }
}
