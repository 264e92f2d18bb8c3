/** Printed JSON (sections 2 to 7 of RFC 8259) survives extraction: the brace counter closes
    exactly where the object ends, whatever its nesting, strings, escapes and white space. */
module JsonPrinted {
  import opened Options
  import opened Text
  import opened JsonExtract

  // ---- JSON texts, with the white space a printer may put anywhere -------------------------

  /** One character of a string literal, or a backslash and the character it escapes. */
  datatype StrChar = Plain(c: char) | Escaped(c: char)

  datatype Value =
    | Scalar(text: string)
    | Str(chars: seq<StrChar>)
    | EmptyArray(ws: string)
    | Array(items: Items)
    | EmptyObject(ws: string)
    | Object(members: Members)

  datatype Items =
    | LastItem(before: string, value: Value, after: string)
    | MoreItems(before: string, value: Value, after: string, rest: Items)

  datatype Members =
    | LastMember(gap: Gap, name: seq<StrChar>, value: Value)
    | MoreMembers(gap: Gap, name: seq<StrChar>, value: Value, rest: Members)

  /** The four places for white space in one member. */
  datatype Gap = Gap(beforeName: string, afterName: string, beforeValue: string, afterValue: string)

  predicate White(ws: string) {
    forall c :: c in ws ==> c == ' ' || c == '\t' || c == '\n' || c == '\r'
  }

  predicate GapOk(g: Gap) {
    White(g.beforeName) && White(g.afterName) && White(g.beforeValue) && White(g.afterValue)
  }

  predicate CharsOk(chars: seq<StrChar>) {
    forall i :: 0 <= i < |chars| && chars[i].Plain? ==> chars[i].c != '"' && chars[i].c != '\\'
  }

  /** Numbers, true, false and null hold none of the characters the counter reacts to. */
  predicate Dull(s: string) {
    forall c :: c in s ==> c != '{' && c != '}' && c != '"' && c != '\\'
  }

  predicate WellFormed(v: Value) {
    match v
    case Scalar(t) => Dull(t)
    case Str(cs) => CharsOk(cs)
    case EmptyArray(ws) => White(ws)
    case Array(items) => ItemsOk(items)
    case EmptyObject(ws) => White(ws)
    case Object(ms) => MembersOk(ms)
  }

  predicate ItemsOk(items: Items) {
    White(items.before) && WellFormed(items.value) && White(items.after)
    && (items.MoreItems? ==> ItemsOk(items.rest))
  }

  predicate MembersOk(ms: Members) {
    GapOk(ms.gap) && CharsOk(ms.name) && WellFormed(ms.value)
    && (ms.MoreMembers? ==> MembersOk(ms.rest))
  }

  function PrintChars(chars: seq<StrChar>): string {
    if chars == [] then ""
    else (if chars[0].Plain? then [chars[0].c] else ['\\', chars[0].c]) + PrintChars(chars[1..])
  }

  function Quote(chars: seq<StrChar>): string {
    "\"" + PrintChars(chars) + "\""
  }

  function Print(v: Value): string {
    match v
    case Scalar(t) => t
    case Str(cs) => Quote(cs)
    case EmptyArray(ws) => "[" + ws + "]"
    case Array(items) => "[" + PrintItems(items) + "]"
    case EmptyObject(ws) => "{" + ws + "}"
    case Object(ms) => "{" + PrintMembers(ms) + "}"
  }

  function PrintItems(items: Items): string {
    var item := items.before + Print(items.value) + items.after;
    if items.LastItem? then item else item + "," + PrintItems(items.rest)
  }

  function PrintMembers(ms: Members): string {
    var member := ms.gap.beforeName + Quote(ms.name) + ms.gap.afterName + ":"
                  + ms.gap.beforeValue + Print(ms.value) + ms.gap.afterValue;
    if ms.LastMember? then member else member + "," + PrintMembers(ms.rest)
  }

  predicate IsObject(v: Value) {
    (v.EmptyObject? || v.Object?) && WellFormed(v)
  }

  // ---- the counter over concatenations ------------------------------------------------------

  lemma {:induction false} AfterAppend(s: Scan, a: string, b: string)
    ensures After(s, a + b) == After(After(s, a), b)
    decreases |b|
  {
    if b == "" {
      assert a + b == a;
    } else {
      AfterAppend(s, a, b[..|b| - 1]);
      assert (a + b)[..|a + b| - 1] == a + b[..|b| - 1];
    }
  }

  lemma {:induction false} CloseAppend(s: Scan, a: string, b: string)
    ensures Close(s, a).Some? ==> Close(s, a + b) == Close(s, a)
    ensures Close(s, a).None? ==> Close(s, a + b) == Plus(Close(After(s, a), b), |a|)
    decreases |a|
  {
    if a == "" {
      assert a + b == b;
    } else {
      assert (a + b)[1..] == a[1..] + b;
      AfterFront(s, a);
      if !Closes(s, a[0]) {
        CloseAppend(Advance(s, a[0]), a[1..], b);
      }
    }
  }

  /** Reading `t` at depth `d` outside strings closes nothing and changes nothing. */
  predicate Neutral(t: string, d: int) {
    Close(Scan(d, false, false), t) == None && After(Scan(d, false, false), t) == Scan(d, false, false)
  }

  lemma NeutralJoin(a: string, b: string, d: int)
    requires Neutral(a, d) && Neutral(b, d)
    ensures Neutral(a + b, d)
  {
    CloseAppend(Scan(d, false, false), a, b);
    AfterAppend(Scan(d, false, false), a, b);
  }

  lemma {:induction false} DullIsNeutral(t: string, d: int)
    requires Dull(t)
    ensures Neutral(t, d)
  {
    if t != "" {
      assert t[0] in t && forall c :: c in t[1..] ==> c in t;
      DullIsNeutral(t[1..], d);
      AfterFront(Scan(d, false, false), t);
    }
  }

  lemma {:induction false} CharsStayInString(cs: seq<StrChar>, d: int)
    requires CharsOk(cs)
    ensures Close(Scan(d, true, false), PrintChars(cs)) == None
    ensures After(Scan(d, true, false), PrintChars(cs)) == Scan(d, true, false)
  {
    if cs != [] {
      CharsStayInString(cs[1..], d);
      var s := Scan(d, true, false);
      var head := if cs[0].Plain? then [cs[0].c] else ['\\', cs[0].c];
      AfterFront(s, head);
      if cs[0].Escaped? {
        AfterFront(Advance(s, '\\'), head[1..]);
      }
      assert Close(s, head) == None && After(s, head) == s;
      CloseAppend(s, head, PrintChars(cs[1..]));
      AfterAppend(s, head, PrintChars(cs[1..]));
    }
  }

  /** A quoted string is passed over, whatever braces, quotes or backslashes it spells. */
  lemma QuoteIsNeutral(cs: seq<StrChar>, d: int)
    requires CharsOk(cs)
    ensures Neutral(Quote(cs), d)
  {
    var s, body := Scan(d, false, false), PrintChars(cs);
    var inside := Scan(d, true, false);
    CharsStayInString(cs, d);
    AfterFront(s, "\"");
    AfterFront(inside, "\"");
    CloseAppend(s, "\"", body);
    AfterAppend(s, "\"", body);
    CloseAppend(s, "\"" + body, "\"");
    AfterAppend(s, "\"" + body, "\"");
  }

  lemma Brackets(body: string, d: int)
    requires Neutral(body, d)
    ensures Neutral("[" + body + "]", d)
  {
    DullIsNeutral("[", d);
    DullIsNeutral("]", d);
    NeutralJoin("[", body, d);
    NeutralJoin("[" + body, "]", d);
  }

  lemma OneChar(s: Scan, c: char)
    ensures Close(s, [c]) == if Closes(s, c) then Some(0) else None
    ensures After(s, [c]) == Advance(s, c)
  {
    AfterFront(s, [c]);
    assert [c][1..] == "";
  }

  lemma BracesOpen(body: string, d: int)
    requires Neutral(body, d + 1) && d >= 0
    ensures Close(Scan(d, false, false), "{" + body) == None
    ensures After(Scan(d, false, false), "{" + body) == Scan(d + 1, false, false)
  {
    var s := Scan(d, false, false);
    OneChar(s, '{');
    CloseAppend(s, "{", body);
    AfterAppend(s, "{", body);
  }

  /** An object inside another is neutral; at depth zero its last brace closes it. */
  lemma Braces(body: string, d: int)
    requires Neutral(body, d + 1) && d >= 0
    ensures d >= 1 ==> Neutral("{" + body + "}", d)
    ensures d == 0 ==> Close(START, "{" + body + "}") == Some(|body| + 1)
  {
    var s := Scan(d, false, false);
    BracesOpen(body, d);
    OneChar(Scan(d + 1, false, false), '}');
    CloseAppend(s, "{" + body, "}");
    AfterAppend(s, "{" + body, "}");
  }

  lemma {:induction false} PrintIsNeutral(v: Value, d: int)
    requires WellFormed(v) && d >= 1
    ensures Neutral(Print(v), d)
    decreases v
  {
    match v
    case Scalar(t) => DullIsNeutral(t, d);
    case Str(cs) => QuoteIsNeutral(cs, d);
    case EmptyArray(ws) =>
      DullIsNeutral(ws, d);
      Brackets(ws, d);
    case Array(items) =>
      ItemsAreNeutral(items, d);
      Brackets(PrintItems(items), d);
    case EmptyObject(ws) =>
      DullIsNeutral(ws, d + 1);
      Braces(ws, d);
    case Object(ms) =>
      MembersAreNeutral(ms, d + 1);
      Braces(PrintMembers(ms), d);
  }

  lemma {:induction false} ItemsAreNeutral(items: Items, d: int)
    requires ItemsOk(items) && d >= 1
    ensures Neutral(PrintItems(items), d)
    decreases items
  {
    DullIsNeutral(items.before, d);
    DullIsNeutral(items.after, d);
    PrintIsNeutral(items.value, d);
    var item := items.before + Print(items.value) + items.after;
    NeutralJoin(items.before, Print(items.value), d);
    NeutralJoin(items.before + Print(items.value), items.after, d);
    if items.MoreItems? {
      ItemsAreNeutral(items.rest, d);
      DullIsNeutral(",", d);
      NeutralJoin(item, ",", d);
      NeutralJoin(item + ",", PrintItems(items.rest), d);
    }
  }

  lemma {:induction false} MembersAreNeutral(ms: Members, d: int)
    requires MembersOk(ms) && d >= 1
    ensures Neutral(PrintMembers(ms), d)
    decreases ms
  {
    PrintIsNeutral(ms.value, d);
    MemberIsNeutral(ms.gap, ms.name, Print(ms.value), d);
    if ms.MoreMembers? {
      MembersAreNeutral(ms.rest, d);
      var member := ms.gap.beforeName + Quote(ms.name) + ms.gap.afterName + ":"
                    + ms.gap.beforeValue + Print(ms.value) + ms.gap.afterValue;
      DullIsNeutral(",", d);
      NeutralJoin(member, ",", d);
      NeutralJoin(member + ",", PrintMembers(ms.rest), d);
    }
  }

  lemma MemberIsNeutral(g: Gap, name: seq<StrChar>, value: string, d: int)
    requires GapOk(g) && CharsOk(name) && Neutral(value, d)
    ensures Neutral(g.beforeName + Quote(name) + g.afterName + ":" + g.beforeValue + value + g.afterValue, d)
  {
    DullIsNeutral(g.beforeName, d);
    DullIsNeutral(g.afterName, d);
    DullIsNeutral(":", d);
    DullIsNeutral(g.beforeValue, d);
    DullIsNeutral(g.afterValue, d);
    QuoteIsNeutral(name, d);
    var a := g.beforeName + Quote(name);
    NeutralJoin(g.beforeName, Quote(name), d);
    NeutralJoin(a, g.afterName, d);
    NeutralJoin(a + g.afterName, ":", d);
    NeutralJoin(a + g.afterName + ":", g.beforeValue, d);
    NeutralJoin(a + g.afterName + ":" + g.beforeValue, value, d);
    NeutralJoin(a + g.afterName + ":" + g.beforeValue + value, g.afterValue, d);
  }

  // ---- extraction gives the printed object back ---------------------------------------------

  lemma ClosesAtItsEnd(v: Value)
    requires IsObject(v)
    ensures |Print(v)| >= 2 && Print(v)[0] == '{'
    ensures Close(START, Print(v)) == Some(|Print(v)| - 1)
  {
    if v.EmptyObject? {
      DullIsNeutral(v.ws, 1);
      Braces(v.ws, 0);
    } else {
      MembersAreNeutral(v.members, 1);
      Braces(PrintMembers(v.members), 0);
    }
  }

  lemma BraceBlockFindsObject(prefix: string, v: Value, suffix: string)
    requires IsObject(v) && '{' !in prefix
    ensures BraceBlock(prefix + Print(v) + suffix) == Some(Print(v))
  {
    var text := prefix + Print(v) + suffix;
    ClosesAtItsEnd(v);
    assert text == prefix + ['{'] + text[|prefix| + 1..];
    IndexOfFirst(prefix, text[|prefix| + 1..], '{');
    assert text[|prefix|..] == Print(v) + suffix;
    CloseAppend(START, Print(v), suffix);
    assert (Print(v) + suffix)[..|Print(v)|] == Print(v);
  }

  /** Brace-free prefix, printed object, any suffix, and fewer than two fences in the whole text:
      the result is exactly the printed object. */
  lemma ExtractsPrintedObject(prefix: string, v: Value, suffix: string)
    requires IsObject(v) && '{' !in prefix
    requires FenceSpan(prefix + Print(v) + suffix).None?
    ensures Extract(prefix + Print(v) + suffix) == Some(Print(v))
  {
    BraceBlockFindsObject(prefix, v, suffix);
  }

  /** No fence occurs in `s`, nor can one begin in `s` and end in a fence that follows. */
  ghost predicate Quiet(s: string) {
    forall i: nat :: !IsAt(s + "``", FENCE, i)
  }

  lemma FindFence(before: string, after: string, from: nat)
    requires from <= |before| && Quiet(before[from..])
    ensures Find(before + FENCE + after, FENCE, from) == Some(|before|)
  {
    var text := before + FENCE + after;
    assert IsAt(text, FENCE, |before|);
    forall i: nat | from <= i < |before| ensures !IsAt(text, FENCE, i) {
      var tail := before[from..] + "``";
      assert !IsAt(tail, FENCE, i - from);
      assert tail == text[from..|before| + 2];
      assert text[i..i + 3] == tail[i - from..i - from + 3];
    }
  }

  lemma FenceSpanOf(pre: string, inner: string, post: string)
    requires Quiet(pre) && Quiet(inner)
    ensures FenceSpan(pre + FENCE + inner + FENCE + post) == Some(Span(|pre| + 3, |pre| + 3 + |inner|))
    ensures (pre + FENCE + inner + FENCE + post)[|pre| + 3..|pre| + 3 + |inner|] == inner
  {
    var text := pre + FENCE + inner + FENCE + post;
    var tail := inner + FENCE + post;
    assert text == pre + FENCE + tail;
    assert pre[0..] == pre;
    FindFence(pre, tail, 0);
    var front := pre + FENCE + inner;
    assert text == front + FENCE + post;
    assert front[|pre| + 3..] == inner;
    FindFence(front, post, |pre| + 3);
  }

  lemma QuietHasNoFence(s: string, k: nat)
    requires Quiet(s) && k <= |s|
    ensures FenceSpan(s[k..]).None?
  {
    forall i: nat ensures !IsAt(s[k..], FENCE, i) {
      assert !IsAt(s + "``", FENCE, k + i);
      if i + 3 <= |s[k..]| {
        assert (s + "``")[k + i..k + i + 3] == s[k..][i..i + 3];
      }
    }
  }

  lemma {:induction false} StripKeeps(s: string, c: char)
    requires c in s && !IsSpace(c)
    ensures c in Strip(s)
    decreases |s|
  {
    if IsSpace(s[0]) {
      assert s == [s[0]] + s[1..];
      StripKeeps(s[1..], c);
    } else if IsSpace(s[|s| - 1]) {
      assert s == s[..|s| - 1] + [s[|s| - 1]];
      StripKeeps(s[..|s| - 1], c);
    }
  }

  /** A first line that holds a brace or a backtick is no language label. */
  lemma MarkIsNoLabel(line: string, mark: char)
    requires mark in line && (mark == '{' || mark == '`')
    ensures Lower(Strip(line)) !in LABELS
  {
    StripKeeps(line, mark);
    var t := Strip(line);
    var i :| 0 <= i < |t| && t[i] == mark;
    assert Lower(t)[i] == mark;
    assert forall l :: l in LABELS ==> mark !in l;
  }

  /** Removing the language line leaves a brace-free lead and the object. */
  lemma UnlabelledKeepsObject(lead: string, v: Value, rest: string) returns (k: nat)
    requires IsObject(v) && '{' !in lead
    ensures k <= |lead| && Unlabelled(lead + Print(v) + rest) == (lead + Print(v) + rest)[k..]
    ensures (lead + Print(v) + rest)[k..] == lead[k..] + Print(v) + rest
  {
    var inner := lead + Print(v) + rest;
    ClosesAtItsEnd(v);
    var nl := IndexOf(inner, '\n');
    assert inner[|lead|] == '{';
    if nl < |lead| {
      k := if Lower(Strip(inner[..nl])) in LABELS then nl + 1 else 0;
    } else {
      k := 0;
      if nl < |inner| {
        assert nl != |lead|;
        assert inner[..nl][|lead|] == '{';
        MarkIsNoLabel(inner[..nl], '{');
      }
    }
  }

  /** A printed object in the first fence, after an optional language line or other brace-free
      text, is what comes out, whatever braces or fences surround the fence. */
  lemma ExtractsFencedObject(pre: string, lead: string, v: Value, rest: string, post: string)
    requires IsObject(v) && '{' !in lead
    requires Quiet(pre) && Quiet(lead + Print(v) + rest)
    ensures Extract(pre + FENCE + (lead + Print(v) + rest) + FENCE + post) == Some(Print(v))
  {
    var inner := lead + Print(v) + rest;
    FenceSpanOf(pre, inner, post);
    InnerExtracts(lead, v, rest);
    FenceWins(pre + FENCE + inner + FENCE + post, inner, Print(v));
  }

  lemma InnerExtracts(lead: string, v: Value, rest: string)
    requires IsObject(v) && '{' !in lead && Quiet(lead + Print(v) + rest)
    ensures Extract(Unlabelled(lead + Print(v) + rest)) == Some(Print(v))
  {
    var k := UnlabelledKeepsObject(lead, v, rest);
    QuietHasNoFence(lead + Print(v) + rest, k);
    ExtractsPrintedObject(lead[k..], v, rest);
  }

  /** What the fenced text yields is the result, whatever stands outside the fence. */
  lemma FenceWins(text: string, inner: string, r: string)
    requires FenceSpan(text).Some? && text[FenceSpan(text).value.from..FenceSpan(text).value.to] == inner
    requires Extract(Unlabelled(inner)) == Some(r)
    ensures Extract(text) == Some(r)
  {
  }

  /** A piece of text without an opening brace and without fences yields nothing. */
  lemma NothingWithoutBrace(s: string, k: nat)
    requires '{' !in s && Quiet(s) && k <= |s|
    ensures Extract(s[k..]) == None
  {
    QuietHasNoFence(s, k);
    assert IndexOf(s[k..], '{') == |s[k..]|;
    assert s[k..][|s[k..]|..] == "";
  }

  lemma NothingInside(inner: string)
    requires '{' !in inner && Quiet(inner)
    ensures Extract(Unlabelled(inner)) == None
  {
    hide Extract;
    var k := if |Unlabelled(inner)| == |inner| then 0 else |inner| - |Unlabelled(inner)|;
    assert Unlabelled(inner) == inner[k..];
    NothingWithoutBrace(inner, k);
  }

  /** When the fenced text yields nothing, the whole text is searched. */
  lemma OutsideWins(text: string, inner: string)
    requires FenceSpan(text).Some? && text[FenceSpan(text).value.from..FenceSpan(text).value.to] == inner
    requires Extract(Unlabelled(inner)) == None
    ensures Extract(text) == BraceBlock(text)
  {
  }

  /** A fenced piece without an object does not hide one that follows. */
  lemma ExtractsBehindFence(pre: string, inner: string, lead: string, v: Value, rest: string)
    requires IsObject(v) && '{' !in pre && '{' !in inner && '{' !in lead && Quiet(pre) && Quiet(inner)
    ensures Extract(pre + FENCE + inner + FENCE + (lead + Print(v) + rest)) == Some(Print(v))
  {
    hide Extract, Print, Unlabelled, FenceSpan, Quiet, BraceBlock, IsObject;
    var post := lead + Print(v) + rest;
    var text := pre + FENCE + inner + FENCE + post;
    FenceSpanOf(pre, inner, post);
    NothingInside(inner);
    OutsideWins(text, inner);
    assert text == (pre + FENCE + inner + FENCE + lead) + Print(v) + rest;
    BraceBlockFindsObject(pre + FENCE + inner + FENCE + lead, v, rest);
  }

  /** A backslash hides the character behind it outside strings too, be it a brace or a quote. */
  lemma EscapeOutsideStrings(c: char)
    ensures Extract("{\\" + [c] + "}") == Some("{\\" + [c] + "}")
  {
    var text := "{\\" + [c] + "}";
    assert !IsAt(text, FENCE, 0) && !IsAt(text, FENCE, 1);
    assert IndexOf(text, '{') == 0;
    CloseAt(START, text, 0);
    CloseAt(Scan(1, false, false), text, 1);
    CloseAt(Scan(1, false, true), text, 2);
    CloseAt(Scan(1, false, false), text, 3);
    assert text[0..] == text && text[0..4] == text;
  }

  // ---- the language line decides nothing -----------------------------------------------------

  lemma ShiftedAt(head: string, rest: string, i: nat)
    ensures IsAt(head + rest, FENCE, |head| + i) == IsAt(rest, FENCE, i)
  {
    if i + 3 <= |rest| {
      assert (head + rest)[|head| + i..|head| + i + 3] == rest[i..i + 3];
    }
  }

  lemma NotInHead(head: string, rest: string, i: nat)
    requires '`' !in head && i < |head|
    ensures !IsAt(head + rest, FENCE, i)
  {
    var text := head + rest;
    assert text[i] == head[i];
    if i + 3 <= |text| {
      assert text[i..i + 3][0] == text[i] != FENCE[0];
    }
  }

  lemma FindBehind(head: string, rest: string, from: nat)
    requires '`' !in head
    ensures Find(head + rest, FENCE, |head| + from)
            == (var r := Find(rest, FENCE, from); if r.Some? then Some(|head| + r.value) else None)
    ensures Find(head + rest, FENCE, 0) == Find(head + rest, FENCE, |head|)
  {
    hide IsAt, Find;
    var text := head + rest;
    forall i: nat ensures IsAt(text, FENCE, |head| + i) == IsAt(rest, FENCE, i) {
      ShiftedAt(head, rest, i);
    }
    forall i: nat | i < |head| ensures !IsAt(text, FENCE, i) {
      NotInHead(head, rest, i);
    }
    FindIs(text, |head|, rest, from);
    FindSkips(text, |head|);
  }

  lemma FindIs(text: string, shift: nat, rest: string, from: nat)
    requires forall i: nat :: IsAt(text, FENCE, shift + i) == IsAt(rest, FENCE, i)
    ensures Find(text, FENCE, shift + from)
            == (var r := Find(rest, FENCE, from); if r.Some? then Some(shift + r.value) else None)
  {
    hide IsAt, Find;
    var r, t := Find(rest, FENCE, from), Find(text, FENCE, shift + from);
    if r.Some? {
      assert IsAt(text, FENCE, shift + r.value);
    }
    if t.Some? {
      var j: nat := t.value - shift;
      assert IsAt(text, FENCE, shift + j) && IsAt(rest, FENCE, j);
    }
  }

  lemma FindSkips(text: string, n: nat)
    requires forall i: nat :: i < n ==> !IsAt(text, FENCE, i)
    ensures Find(text, FENCE, 0) == Find(text, FENCE, n)
  {
    hide IsAt, Find;
    var r, t := Find(text, FENCE, 0), Find(text, FENCE, n);
    assert r.Some? ==> IsAt(text, FENCE, r.value);
    assert t.Some? ==> IsAt(text, FENCE, t.value);
  }

  lemma FenceBehind(head: string, rest: string)
    requires '`' !in head
    ensures Fenced(head + rest) == Fenced(rest)
  {
    hide IsAt, Find, Unlabelled;
    var text := head + rest;
    FindBehind(head, rest, 0);
    var p := Find(rest, FENCE, 0);
    if p.Some? {
      FindBehind(head, rest, p.value + 3);
    }
    var f := FenceSpan(rest);
    if f.Some? {
      assert text[|head| + f.value.from..|head| + f.value.to] == rest[f.value.from..f.value.to];
    }
  }

  lemma BraceBehind(head: string, rest: string)
    requires '{' !in head
    ensures BraceBlock(head + rest) == BraceBlock(rest)
  {
    hide IndexOf, Close;
    var text := head + rest;
    var k := IndexOf(rest, '{');
    if k < |rest| {
      IndexOfFirst(head + rest[..k], rest[k + 1..], '{');
      assert head + rest[..k] + ['{'] + rest[k + 1..] == text;
    } else {
      assert rest[..k] == rest && '{' !in text;
    }
    assert IndexOf(text, '{') == |head| + k;
    assert text[|head| + k..] == rest[k..];
    var n := Close(START, rest[k..]);
    if n.Some? {
      assert text[|head| + k..|head| + k + n.value + 1] == rest[k..k + n.value + 1];
    }
  }

  /** A first part without braces and backticks can be dropped. */
  lemma FrontDecidesNothing(head: string, rest: string)
    requires '`' !in head && '{' !in head
    ensures Extract(head + rest) == Extract(rest)
  {
    hide Fenced, BraceBlock;
    FenceBehind(head, rest);
    BraceBehind(head, rest);
  }

  /** The language line changes no result: the block is that of the fenced text as it stands, or,
      when that has none, of the braces of the whole text. */
  lemma LabelDecidesNothing(text: string)
    requires FenceSpan(text).Some?
    ensures var f := FenceSpan(text).value;
            var inner := text[f.from..f.to];
            Extract(text) == if Extract(inner).Some? then Extract(inner) else BraceBlock(text)
  {
    hide Find, IndexOf, Close, BraceBlock;
    var f := FenceSpan(text).value;
    var inner := text[f.from..f.to];
    var nl := IndexOf(inner, '\n');
    if nl < |inner| && Lower(Strip(inner[..nl])) in LABELS {
      if '{' in inner[..nl] {
        MarkIsNoLabel(inner[..nl], '{');
      }
      if '`' in inner[..nl] {
        MarkIsNoLabel(inner[..nl], '`');
      }
      var head := inner[..nl + 1];
      assert head == inner[..nl] + ['\n'];
      assert inner == head + inner[nl + 1..];
      FrontDecidesNothing(head, inner[nl + 1..]);
    }
  }

  // ---- when nothing is found ------------------------------------------------------------------

  lemma {:induction false} NeverCloses(s: Scan, text: string, k: nat)
    requires s.depth > 0 && Close(s, text).None? && k <= |text|
    ensures After(s, text[..k]).depth > 0
    decreases k
  {
    if k > 0 {
      NeverCloses(Advance(s, text[0]), text[1..], k - 1);
      AfterFront(s, text[..k]);
      assert text[..k][1..] == text[1..][..k - 1];
    } else {
      assert text[..0] == "";
    }
  }

  lemma UnclosedStaysOpen(rest: string, k: nat)
    requires rest != "" && rest[0] == '{' && Close(START, rest).None? && 0 < k <= |rest|
    ensures After(START, rest[..k]).depth > 0
  {
    NeverCloses(Advance(START, '{'), rest[1..], k - 1);
    AfterFront(START, rest[..k]);
    assert rest[..k][1..] == rest[1..][..k - 1];
  }

  /** Counting fails exactly when, from the first brace on, the depth never returns to zero. */
  lemma FailsExactlyWhenUnclosed(text: string)
    ensures BraceBlock(text).None? <==>
              var rest := text[IndexOf(text, '{')..];
              forall k :: 0 < k <= |rest| ==> After(START, rest[..k]).depth > 0
  {
    var rest := text[IndexOf(text, '{')..];
    if rest != "" {
      if Close(START, rest).None? {
        forall k | 0 < k <= |rest| ensures After(START, rest[..k]).depth > 0 {
          UnclosedStaysOpen(rest, k);
        }
      } else {
        ClosedIsBlock(rest);
      }
    }
  }

  /** For every text, nothing is extracted only when from its first brace on the depth never returns
      to zero, whatever fences it holds. */
  lemma NothingMeansUnclosed(text: string)
    requires Extract(text).None?
    ensures var rest := text[IndexOf(text, '{')..];
            forall k :: 0 < k <= |rest| ==> After(START, rest[..k]).depth > 0
  {
    FailsExactlyWhenUnclosed(text);
  }
}
