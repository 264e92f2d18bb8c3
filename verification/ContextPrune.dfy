/** Pruning a conversation to a token budget: system messages and the last message first, then
    history from newest to oldest, then cutting or dropping the longest until it fits. */
module ContextPrune {

  /** A content that is no string (missing, null, a list of parts) only matters through the text
      it renders to. */
  datatype Content = Text(text: string) | Other(rendered: string)

  datatype Message = Message(role: string, content: Content)

  const SYSTEM := "system"
  const MARK := ['\n', '\U{2026}', '[', '\U{622A}', '\U{65AD}', ']', '\U{2026}', '\n']
  const SHORT := 20

  function Max(a: int, b: int): int {
    if a >= b then a else b
  }

  function Render(m: Message): string {
    if m.content.Text? then m.content.text else m.content.rendered
  }

  function EstimateTokens(text: string): nat {
    if text == "" then 0 else Max(1, (|text| + 1) / 2)
  }

  function Est(m: Message): nat {
    EstimateTokens(Render(m))
  }

  function Total(ms: seq<Message>): nat {
    if ms == [] then 0 else Est(ms[0]) + Total(ms[1..])
  }

  /** Keep the head and the tail, given in tenths, around a mark; a text that would not get
      shorter is returned as it is. */
  function Truncate(text: string, headTenths: nat, tailTenths: nat): (r: string)
    requires headTenths + tailTenths <= 10
    ensures r == text || |r| < |text|
  {
    var head := Max(1, |text| * headTenths / 10);
    var tail := |text| * tailTenths / 10;
    if head + tail + |MARK| >= |text| then text else text[..head] + MARK + text[|text| - tail..]
  }

  function Shorten(text: string): string {
    Truncate(text, 6, 2)
  }

  /** One token for two characters, rounded up; a shorter text never has a higher estimate. */
  lemma EstimateIsHalf(text: string, other: string)
    ensures |text| <= 2 * EstimateTokens(text) <= |text| + 1
    ensures |text| <= |other| ==> EstimateTokens(text) <= EstimateTokens(other)
  {
  }

  /** Which texts the last loop can cut: those of 41 characters and more, and the odd 38 and 39. */
  lemma CutExactlyWhenLong(text: string)
    ensures Shorten(text) != text <==> |text| > 40 || |text| == 38 || |text| == 39
  {
    var n := |text|;
    assert Shorten(text) != text <==> Max(1, n * 6 / 10) + n * 2 / 10 + 8 < n;
    if n >= 41 {
      assert n * 6 / 10 + n * 2 / 10 <= n * 8 / 10;
    }
  }

  /** A cut text still begins and ends like the original: the first six tenths, the mark, the last
      two tenths. */
  lemma EndsSurvive(text: string)
    requires Shorten(text) != text
    ensures var head, tail, r := |text| * 6 / 10, |text| * 2 / 10, Shorten(text);
            && |r| == head + 8 + tail
            && r[..head] == text[..head] && r[|r| - tail..] == text[|text| - tail..]
            && r[head..head + 8] == ['\n', '\U{2026}', '[', '\U{622A}', '\U{65AD}', ']', '\U{2026}', '\n']
  {
    CutExactlyWhenLong(text);
  }

  function WithText(m: Message, text: string): Message {
    m.(content := Text(text))
  }

  function Systems(ms: seq<Message>): (r: seq<Message>)
    ensures |r| <= |ms|
  {
    if ms == [] then []
    else (if ms[0].role == SYSTEM then [ms[0]] else []) + Systems(ms[1..])
  }

  function Middle(ms: seq<Message>): seq<Message> {
    var n := |Systems(ms)|;
    if |ms| > n + 1 then ms[n..|ms| - 1] else []
  }

  /** The history that comes back, newest first, into `room` tokens; the first message that does
      not fit is cut if that helps, and the search ends there. */
  function Refill(middle: seq<Message>, room: int): seq<Message> {
    if middle == [] then []
    else
      var m := middle[|middle| - 1];
      if Est(m) <= room then Refill(middle[..|middle| - 1], room - Est(m)) + [m]
      else
        var cut := Truncate(Render(m), 4, 0);
        if EstimateTokens(cut) < Est(m) && EstimateTokens(cut) <= room then [WithText(m, cut)] else []
  }

  /** The first of the messages with the largest estimate. */
  function Longest(ms: seq<Message>): (i: nat)
    requires ms != []
    ensures i < |ms|
    ensures forall j :: 0 <= j < |ms| ==> Est(ms[j]) <= Est(ms[i])
    ensures forall j :: 0 <= j < i ==> Est(ms[j]) < Est(ms[i])
  {
    hide Est;
    if |ms| == 1 then 0
    else
      var i := Longest(ms[..|ms| - 1]);
      if Est(ms[|ms| - 1]) > Est(ms[i]) then |ms| - 1 else i
  }

  /** One round of the last loop. */
  function ShrinkOnce(ms: seq<Message>): seq<Message>
    requires ms != []
  {
    var i := Longest(ms);
    var c := ms[i].content;
    if !c.Text? || |c.text| < SHORT || Shorten(c.text) == c.text then ms[..i] + ms[i + 1..]
    else ms[i := WithText(ms[i], Shorten(c.text))]
  }

  /** The length test of the loop decides nothing: a text it would drop could not be cut anyway. */
  lemma ShortTestIsRedundant(ms: seq<Message>)
    requires ms != []
    ensures var i := Longest(ms);
            var c := ms[i].content;
            ShrinkOnce(ms) == if c.Text? && Shorten(c.text) != c.text then ms[i := WithText(ms[i], Shorten(c.text))]
                              else ms[..i] + ms[i + 1..]
  {
    hide Longest, Shorten, Est;
    var c := ms[Longest(ms)].content;
    if c.Text? {
      CutExactlyWhenLong(c.text);
    }
  }

  function Size(ms: seq<Message>): nat {
    if ms == [] then 0 else 1 + |Render(ms[0])| + Size(ms[1..])
  }

  lemma {:induction false} SizeSplit(ms: seq<Message>, i: nat)
    requires i < |ms|
    ensures Size(ms) == Size(ms[..i]) + 1 + |Render(ms[i])| + Size(ms[i + 1..])
  {
    if i == 0 {
      assert ms[..0] == [];
    } else {
      SizeSplit(ms[1..], i - 1);
      assert ms[..i][1..] == ms[1..][..i - 1];
      assert ms[1..][i..] == ms[i + 1..];
    }
  }

  lemma {:induction false} SizeAppend(a: seq<Message>, b: seq<Message>)
    ensures Size(a + b) == Size(a) + Size(b)
  {
    if a == [] {
      assert a + b == b;
    } else {
      SizeAppend(a[1..], b);
      assert (a + b)[1..] == a[1..] + b;
    }
  }

  /** The measure of the last loop: messages plus characters. */
  lemma ShrinkOnceIsSmaller(ms: seq<Message>)
    requires ms != []
    ensures Size(ShrinkOnce(ms)) < Size(ms)
  {
    var i := Longest(ms);
    SizeSplit(ms, i);
    SizeAppend(ms[..i], ms[i + 1..]);
    var next := ShrinkOnce(ms);
    if |next| == |ms| {
      SizeSplit(next, i);
      assert next[..i] == ms[..i] && next[i + 1..] == ms[i + 1..];
    }
  }

  function Shrink(ms: seq<Message>, budget: int): seq<Message>
    decreases Size(ms)
  {
    if Total(ms) <= budget || ms == [] then ms
    else
      ShrinkOnceIsSmaller(ms);
      Shrink(ShrinkOnce(ms), budget)
  }

  /** What must stay, before anything is shortened. */
  function Core(ms: seq<Message>): seq<Message>
    requires ms != []
  {
    Systems(ms) + [ms[|ms| - 1]]
  }

  function Restored(ms: seq<Message>, budget: int): seq<Message>
    requires ms != []
  {
    Systems(ms) + Refill(Middle(ms), budget - Total(Core(ms))) + [ms[|ms| - 1]]
  }

  function Pruned(ms: seq<Message>, budget: int): seq<Message> {
    if ms == [] || budget <= 0 || Total(ms) <= budget then ms else Shrink(Restored(ms, budget), budget)
  }

  // ---- the pruner as it runs ------------------------------------------------------------------

  method PruneMessages(messages: seq<Message>, budget: int) returns (kept: seq<Message>)
    ensures kept == Pruned(messages, budget)
  {
    if messages == [] || budget <= 0 || Total(messages) <= budget {
      return messages;
    }
    var system, last := Systems(messages), messages[|messages| - 1];
    var middle := Middle(messages);
    kept := system + [last];
    kept := RefillHistory(system, last, middle, budget - Total(kept));
    kept := ShrinkToFit(kept, budget);
  }

  function Insert(kept: seq<Message>, at: nat, m: Message): seq<Message>
    requires at <= |kept|
  {
    kept[..at] + [m] + kept[at..]
  }

  lemma Inserted(system: seq<Message>, m: Message, back: seq<Message>, last: Message)
    ensures Insert(system + back + [last], |system|, m) == system + ([m] + back) + [last]
  {
  }

  lemma RefillStep(middle: seq<Message>, i: nat, room: int, back: seq<Message>)
    requires 0 < i <= |middle| && Est(middle[i - 1]) <= room
    ensures Refill(middle[..i], room) + back
            == Refill(middle[..i - 1], room - Est(middle[i - 1])) + ([middle[i - 1]] + back)
  {
    assert middle[..i][..i - 1] == middle[..i - 1];
    var front := Refill(middle[..i - 1], room - Est(middle[i - 1]));
    assert front + [middle[i - 1]] + back == front + ([middle[i - 1]] + back);
  }

  lemma RefillStop(middle: seq<Message>, i: nat, room: int, back: seq<Message>)
    requires i <= |middle| && (i > 0 ==> Est(middle[i - 1]) > room)
    ensures Refill(middle[..i], room) + back ==
            if i == 0 then back
            else
              var cut := Truncate(Render(middle[i - 1]), 4, 0);
              if EstimateTokens(cut) < Est(middle[i - 1]) && EstimateTokens(cut) <= room
              then [WithText(middle[i - 1], cut)] + back
              else back
  {
    hide EstimateTokens;
    assert [] + back == back;
  }

  /** Refilling inserts each message just behind the system messages. */
  method RefillHistory(system: seq<Message>, last: Message, middle: seq<Message>, room: int)
    returns (kept: seq<Message>)
    ensures kept == system + Refill(middle, room) + [last]
  {
    kept := system + [last];
    var headroom := room;
    var i := |middle|;
    ghost var back := [];
    assert middle[..i] == middle;
    assert system + back == system;
    while i > 0 && Est(middle[i - 1]) <= headroom
      invariant 0 <= i <= |middle|
      invariant kept == system + back + [last]
      invariant Refill(middle, room) == Refill(middle[..i], headroom) + back
    {
      var m := middle[i - 1];
      RefillStep(middle, i, headroom, back);
      Inserted(system, m, back, last);
      kept := Insert(kept, |system|, m);
      back := [m] + back;
      headroom := headroom - Est(m);
      i := i - 1;
    }
    RefillStop(middle, i, headroom, back);
    if i > 0 {
      var m := middle[i - 1];
      var cut := Truncate(Render(m), 4, 0);
      if EstimateTokens(cut) < Est(m) && EstimateTokens(cut) <= headroom {
        Inserted(system, WithText(m, cut), back, last);
        kept := Insert(kept, |system|, WithText(m, cut));
      }
    }
  }

  method ShrinkToFit(ms: seq<Message>, budget: int) returns (kept: seq<Message>)
    ensures kept == Shrink(ms, budget)
  {
    kept := ms;
    while Total(kept) > budget && kept != []
      invariant Shrink(kept, budget) == Shrink(ms, budget)
      decreases Size(kept)
    {
      ShrinkOnceIsSmaller(kept);
      var idx := Longest(kept);
      var m := kept[idx];
      if !m.content.Text? || |m.content.text| < SHORT {
        kept := kept[..idx] + kept[idx + 1..];
        continue;
      }
      var truncated := Shorten(m.content.text);
      if truncated == m.content.text {
        kept := kept[..idx] + kept[idx + 1..];
      } else {
        kept := kept[idx := WithText(m, truncated)];
      }
    }
  }

  // ---- the budget -----------------------------------------------------------------------------

  lemma {:induction false} ShrinkFits(ms: seq<Message>, budget: int)
    requires budget >= 0
    ensures Total(Shrink(ms, budget)) <= budget
    decreases Size(ms)
  {
    if Total(ms) > budget {
      ShrinkOnceIsSmaller(ms);
      ShrinkFits(ShrinkOnce(ms), budget);
    }
  }

  /** For every list and every positive budget the result is within the budget. */
  lemma WithinBudget(ms: seq<Message>, budget: int)
    requires budget > 0
    ensures Total(Pruned(ms, budget)) <= budget
  {
    if ms != [] && Total(ms) > budget {
      ShrinkFits(Restored(ms, budget), budget);
    }
  }

  lemma {:induction false} TotalAppend(a: seq<Message>, b: seq<Message>)
    ensures Total(a + b) == Total(a) + Total(b)
  {
    if a == [] {
      assert a + b == b;
    } else {
      TotalAppend(a[1..], b);
      assert (a + b)[1..] == a[1..] + b;
    }
  }

  lemma {:induction false} RefillFits(middle: seq<Message>, room: int)
    requires room >= 0
    ensures Total(Refill(middle, room)) <= room
  {
    if middle != [] {
      var m := middle[|middle| - 1];
      if Est(m) <= room {
        RefillFits(middle[..|middle| - 1], room - Est(m));
        TotalAppend(Refill(middle[..|middle| - 1], room - Est(m)), [m]);
      }
    }
  }

  /** From `k` on everything fits into `room`, and not one message more would. */
  predicate NewestRun(middle: seq<Message>, room: int, k: nat) {
    && k <= |middle|
    && (room >= 0 ==> Total(middle[k..]) <= room)
    && (k > 0 ==> Total(middle[k - 1..]) > room)
  }

  /** How much of a cut history message comes back: the first four tenths, and at least one character. */
  function Opening(text: string): (h: nat)
    ensures text != "" ==> 1 <= h <= |text|
    ensures h == |text| * 4 / 10 || (h == 1 && |text| * 4 / 10 == 0)
  {
    if |text| * 4 / 10 >= 1 then |text| * 4 / 10 else 1
  }

  function Opened(m: Message): Message {
    var text := Render(m);
    Message(m.role, Text(if text == "" then MARK else text[..Opening(text)] + MARK))
  }

  /** The opening and the mark cost less than the message, and fit. */
  predicate WorthOpening(m: Message, room: int) {
    (Opening(Render(m)) + 9) / 2 < (|Render(m)| + 1) / 2 && (Opening(Render(m)) + 9) / 2 <= room
  }

  lemma CutIsOpening(m: Message, room: int)
    ensures var cut := Truncate(Render(m), 4, 0);
            && (EstimateTokens(cut) < Est(m) && EstimateTokens(cut) <= room <==> WorthOpening(m, room))
            && (WorthOpening(m, room) ==> WithText(m, cut) == Opened(m))
            && (cut == Render(m) || WithText(m, cut) == Opened(m))
  {
    var text, h := Render(m), Opening(Render(m));
    if text != "" && h + 8 < |text| {
      assert Truncate(text, 4, 0) == text[..h] + MARK + text[|text| - 0..] == text[..h] + MARK;
    } else if text != "" {
      assert Truncate(text, 4, 0) == text;
    }
  }

  /** The messages from `k` on, or those and the opening of the one before them. */
  predicate RunOrOneCut(middle: seq<Message>, k: nat, back: seq<Message>)
    requires k <= |middle|
  {
    || back == middle[k..]
    || (k > 0 && back == [Opened(middle[k - 1])] + middle[k..])
  }

  /** What stands in front of the run from `k` on. */
  function Front(middle: seq<Message>, room: int, k: nat): seq<Message>
    requires k <= |middle|
  {
    if k > 0 && WorthOpening(middle[k - 1], room - Total(middle[k..])) then [Opened(middle[k - 1])] else []
  }

  lemma FitsLast(middle: seq<Message>, room: int, k: nat)
    requires middle != [] && k < |middle| && Est(middle[|middle| - 1]) <= room
    ensures var n, m := |middle| - 1, middle[|middle| - 1];
            Front(middle, room, k) == Front(middle[..n], room - Est(m), k)
            && Refill(middle, room) == Refill(middle[..n], room - Est(m)) + [m]
  {
    SuffixOf(middle, k);
  }

  lemma NoneFits(middle: seq<Message>, room: int)
    requires middle != [] && Est(middle[|middle| - 1]) > room
    ensures NewestRun(middle, room, |middle|) && Total(middle[|middle|..]) == 0
  {
    hide Est;
    var m := middle[|middle| - 1];
    assert middle[|middle| - 1..] == [m] && middle[|middle|..] == [] && [m][1..] == [];
    assert Total([m]) == Est(m) + Total([]);
  }

  lemma CutsLast(middle: seq<Message>, room: int)
    requires middle != [] && Est(middle[|middle| - 1]) > room
    ensures Refill(middle, room) == Front(middle, room, |middle|) && NewestRun(middle, room, |middle|)
  {
    hide Truncate, Opening, Opened, WorthOpening, EstimateTokens, Total, NewestRun, Render, WithText;
    NoneFits(middle, room);
    CutIsOpening(middle[|middle| - 1], room);
  }

  /** The history that comes back is the longest run of newest messages that fits. In front of it
      stands the opening of the message before, exactly when that costs less than the message and
      fits the room left. */
  lemma RefillIsNewest(middle: seq<Message>, room: int) returns (k: nat)
    ensures NewestRun(middle, room, k) && RunOrOneCut(middle, k, Refill(middle, room))
    ensures var opens := k > 0 && WorthOpening(middle[k - 1], room - Total(middle[k..]));
            Refill(middle, room) == (if opens then [Opened(middle[k - 1])] else []) + middle[k..]
  {
    hide Refill, WorthOpening, Opened, NewestRun;
    k := RefillIsFrontAndRun(middle, room);
    RunWithin(middle, room, k);
    assert [] + middle[k..] == middle[k..];
  }

  lemma {:induction false} RefillIsFrontAndRun(middle: seq<Message>, room: int) returns (k: nat)
    ensures NewestRun(middle, room, k) && Refill(middle, room) == Front(middle, room, k) + middle[k..]
  {
    hide Refill, Front, NewestRun, Est;
    if middle == [] {
      k := 0;
      NothingToRefill(middle, room);
    } else if Est(middle[|middle| - 1]) <= room {
      var n, m := |middle| - 1, middle[|middle| - 1];
      k := RefillIsFrontAndRun(middle[..n], room - Est(m));
      RunWithin(middle[..n], room - Est(m), k);
      RunGrows(middle, room, k);
      FitsLast(middle, room, k);
      assert Front(middle, room, k) + middle[..n][k..] + [m] == Front(middle, room, k) + middle[k..];
    } else {
      k := |middle|;
      CutsLast(middle, room);
    }
  }

  lemma NothingToRefill(middle: seq<Message>, room: int)
    requires middle == []
    ensures NewestRun(middle, room, 0) && Refill(middle, room) == Front(middle, room, 0) + middle[0..]
  {
  }

  lemma RunWithin(middle: seq<Message>, room: int, k: nat)
    requires NewestRun(middle, room, k)
    ensures k <= |middle|
  {
  }

  lemma RunGrows(middle: seq<Message>, room: int, k: nat)
    requires middle != [] && Est(middle[|middle| - 1]) <= room
    requires NewestRun(middle[..|middle| - 1], room - Est(middle[|middle| - 1]), k)
    ensures NewestRun(middle, room, k)
  {
    SuffixOf(middle, k);
    if k > 0 {
      SuffixOf(middle, k - 1);
    }
  }

  lemma SuffixOf(middle: seq<Message>, k: nat)
    requires k < |middle|
    ensures middle[k..] == middle[..|middle| - 1][k..] + [middle[|middle| - 1]]
    ensures Total(middle[k..]) == Total(middle[..|middle| - 1][k..]) + Est(middle[|middle| - 1])
  {
    var m := middle[|middle| - 1];
    assert middle[k..] == middle[..|middle| - 1][k..] + [m];
    TotalAppend(middle[..|middle| - 1][k..], [m]);
    assert Total([m]) == Est(m);
  }

  /** System messages and the last message survive whole exactly when they fit the budget
      themselves, whatever the history; then nothing is shortened but one history message. */
  lemma CoreSurvivesExactlyWhenItFits(ms: seq<Message>, budget: int)
    requires ms != [] && 0 < budget < Total(ms)
    ensures Total(Core(ms)) <= budget <==> Pruned(ms, budget) == Restored(ms, budget)
  {
    hide Refill, Truncate, Total, Systems, Middle, ShrinkOnce, Longest;
    var room := budget - Total(Core(ms));
    var back := Refill(Middle(ms), room);
    TotalAppend(Systems(ms), [ms[|ms| - 1]]);
    TotalAppend(Systems(ms), back);
    TotalAppend(Systems(ms) + back, [ms[|ms| - 1]]);
    if room >= 0 {
      RefillFits(Middle(ms), room);
    } else {
      ShrinkFits(Restored(ms, budget), budget);
    }
  }

  // ---- order and content ------------------------------------------------------------------------

  function ShortenTimes(text: string, n: nat): string {
    if n == 0 then text else Shorten(ShortenTimes(text, n - 1))
  }

  ghost predicate Reaches(text: string, cut: string) {
    exists n: nat :: cut == ShortenTimes(text, n)
  }

  lemma ReachesOn(text: string, cut: string)
    ensures Reaches(text, text)
    ensures Reaches(text, cut) ==> Reaches(text, Shorten(cut))
  {
    assert text == ShortenTimes(text, 0);
    if Reaches(text, cut) {
      var n: nat :| cut == ShortenTimes(text, n);
      assert Shorten(cut) == ShortenTimes(text, n + 1);
    }
  }

  /** `m` is `orig`, or carries a text made from it by cutting alone. */
  ghost predicate CutFrom(orig: Message, m: Message) {
    || m == orig
    || (&& m.role == orig.role && m.content.Text?
        && (Reaches(Render(orig), m.content.text) || Reaches(Opened(orig).content.text, m.content.text)))
  }

  lemma CutAgain(orig: Message, m: Message)
    requires CutFrom(orig, m) && m.content.Text?
    ensures CutFrom(orig, WithText(m, Shorten(m.content.text)))
  {
    ReachesOn(Render(orig), m.content.text);
    ReachesOn(Opened(orig).content.text, m.content.text);
  }

  lemma CutOnce(orig: Message)
    ensures CutFrom(orig, Opened(orig))
  {
    ReachesOn(Opened(orig).content.text, "");
  }

  ghost predicate Increasing(at: seq<nat>) {
    forall i, j :: 0 <= i < j < |at| ==> at[i] < at[j]
  }

  /** `ms` lists, in order and each at most once, messages of `base`, up to cutting. */
  ghost predicate PickedFrom(base: seq<Message>, at: seq<nat>, ms: seq<Message>) {
    && |at| == |ms| && Increasing(at)
    && forall i :: 0 <= i < |ms| ==> at[i] < |base| && CutFrom(base[at[i]], ms[i])
  }

  lemma DropPicked(base: seq<Message>, at: seq<nat>, ms: seq<Message>, i: nat)
    requires PickedFrom(base, at, ms) && i < |ms|
    ensures PickedFrom(base, at[..i] + at[i + 1..], ms[..i] + ms[i + 1..])
  {
    var to, next := at[..i] + at[i + 1..], ms[..i] + ms[i + 1..];
    forall j | 0 <= j < |next| ensures to[j] < |base| && CutFrom(base[to[j]], next[j]) {
      var k := if j < i then j else j + 1;
      assert to[j] == at[k] && next[j] == ms[k];
    }
  }

  lemma ReplacePicked(base: seq<Message>, at: seq<nat>, ms: seq<Message>, i: nat, m: Message)
    requires PickedFrom(base, at, ms) && i < |ms| && CutFrom(base[at[i]], m)
    ensures PickedFrom(base, at, ms[i := m])
  {
  }

  lemma ShrinkOncePicks(base: seq<Message>, at: seq<nat>, ms: seq<Message>) returns (to: seq<nat>)
    requires PickedFrom(base, at, ms) && ms != []
    ensures PickedFrom(base, to, ShrinkOnce(ms))
  {
    hide Truncate, Est, ShortenTimes;
    var i := Longest(ms);
    var c := ms[i].content;
    if !c.Text? || |c.text| < SHORT || Shorten(c.text) == c.text {
      to := at[..i] + at[i + 1..];
      DropPicked(base, at, ms, i);
    } else {
      to := at;
      CutAgain(base[at[i]], ms[i]);
      ReplacePicked(base, at, ms, i, WithText(ms[i], Shorten(c.text)));
    }
  }

  lemma {:induction false} ShrinkPicks(base: seq<Message>, at: seq<nat>, ms: seq<Message>, budget: int)
    returns (to: seq<nat>)
    requires PickedFrom(base, at, ms)
    ensures PickedFrom(base, to, Shrink(ms, budget))
    decreases Size(ms)
  {
    to := at;
    if Total(ms) > budget && ms != [] {
      ShrinkOnceIsSmaller(ms);
      to := ShrinkOncePicks(base, at, ms);
      to := ShrinkPicks(base, to, ShrinkOnce(ms), budget);
    }
  }

  /** System messages come first and the last message is none of them. */
  predicate SystemsFirst(ms: seq<Message>, p: nat) {
    p < |ms| && forall i :: 0 <= i < |ms| ==> (ms[i].role == "system" <==> i < p)
  }

  lemma {:induction false} SystemsArePrefix(ms: seq<Message>, p: nat)
    requires p <= |ms| && forall i :: 0 <= i < |ms| ==> (ms[i].role == SYSTEM <==> i < p)
    ensures Systems(ms) == ms[..p]
  {
    if ms != [] {
      SystemsArePrefix(ms[1..], if p > 0 then p - 1 else 0);
      if p > 0 {
        assert ms[..p] == [ms[0]] + ms[1..][..p - 1];
      }
    }
  }

  function Range(lo: nat, hi: nat): (r: seq<nat>)
    requires lo <= hi
    ensures |r| == hi - lo && forall i :: 0 <= i < |r| ==> r[i] == lo + i
  {
    seq(hi - lo, i requires 0 <= i => lo + i)
  }

  /** System prefix, a run of history that is whole but for its oldest message, last message. */
  lemma RunIsPicked(ms: seq<Message>, p: nat, k: nat, back: seq<Message>)
    requires p <= k < |ms| && |back| == |ms| - 1 - k
    requires forall i :: 0 < i < |back| ==> back[i] == ms[k + i]
    requires back != [] ==> CutFrom(ms[k], back[0])
    ensures PickedFrom(ms, Range(0, p) + Range(k, |ms|), ms[..p] + back + [ms[|ms| - 1]])
  {
    var at, all := Range(0, p) + Range(k, |ms|), ms[..p] + back + [ms[|ms| - 1]];
    forall i | 0 <= i < |all| ensures at[i] < |ms| && CutFrom(ms[at[i]], all[i]) {
      if i < p {
        assert all[i] == ms[i] && at[i] == i;
      } else if i == |all| - 1 {
        assert at[i] == |ms| - 1;
      } else {
        assert all[i] == back[i - p] && at[i] == k + (i - p);
      }
    }
  }

  lemma RunShape(middle: seq<Message>, j: nat, back: seq<Message>) returns (k: nat)
    requires j <= |middle| && RunOrOneCut(middle, j, back)
    ensures k <= |middle| && |back| == |middle| - k
    ensures forall i :: 0 < i < |back| ==> back[i] == middle[k + i]
    ensures back != [] ==> CutFrom(middle[k], back[0])
  {
    hide Opened, Reaches, Render;
    if back == middle[j..] {
      k := j;
    } else {
      k := j - 1;
      CutOnce(middle[k]);
    }
  }

  lemma RefillRun(middle: seq<Message>, room: int) returns (k: nat, back: seq<Message>)
    ensures back == Refill(middle, room)
    ensures k <= |middle| && |back| == |middle| - k
    ensures forall i :: 0 < i < |back| ==> back[i] == middle[k + i]
    ensures back != [] ==> CutFrom(middle[k], back[0])
  {
    back := Refill(middle, room);
    var j := RefillIsNewest(middle, room);
    k := RunShape(middle, j, back);
  }

  lemma RestoredParts(ms: seq<Message>, budget: int, p: nat) returns (k: nat, back: seq<Message>)
    requires SystemsFirst(ms, p)
    ensures Restored(ms, budget) == ms[..p] + back + [ms[|ms| - 1]]
    ensures p + k < |ms| && |back| == |ms| - 1 - p - k
    ensures forall i :: 0 < i < |back| ==> back[i] == ms[p..|ms| - 1][k + i]
    ensures back != [] ==> CutFrom(ms[p..|ms| - 1][k], back[0])
  {
    SystemsArePrefix(ms, p);
    assert Middle(ms) == ms[p..|ms| - 1];
    k, back := RefillRun(Middle(ms), budget - Total(Core(ms)));
  }

  /** Before the last loop the list is the system prefix, then history without gaps up to the
      last message; only the oldest history message may be cut. */
  lemma RestoredIsPicked(ms: seq<Message>, budget: int, p: nat) returns (k: nat, restored: seq<Message>)
    requires SystemsFirst(ms, p)
    ensures restored == Restored(ms, budget)
    ensures p <= k < |ms|
    ensures PickedFrom(ms, Range(0, p) + Range(k, |ms|), restored)
    ensures k < |ms| - 1 ==> restored[p + 1..] == ms[k + 1..]
  {
    hide Refill, Total, Truncate;
    restored := Restored(ms, budget);
    var j, back := RestoredParts(ms, budget, p);
    k := RunInPlace(ms, p, j, back, restored);
  }

  lemma RunInPlace(ms: seq<Message>, p: nat, j: nat, back: seq<Message>, restored: seq<Message>)
    returns (k: nat)
    requires p + j < |ms| && |back| == |ms| - 1 - p - j
    requires forall i :: 0 < i < |back| ==> back[i] == ms[p..|ms| - 1][j + i]
    requires back != [] ==> CutFrom(ms[p..|ms| - 1][j], back[0])
    requires restored == ms[..p] + back + [ms[|ms| - 1]]
    ensures k == p + j
    ensures PickedFrom(ms, Range(0, p) + Range(k, |ms|), restored)
    ensures k < |ms| - 1 ==> restored[p + 1..] == ms[k + 1..]
  {
    hide Truncate, ShortenTimes;
    k := p + j;
    RunIsPicked(ms, p, k, back);
    if back != [] {
      var tail := restored[p + 1..];
      assert tail == back[1..] + [ms[|ms| - 1]];
      forall i | 0 <= i < |tail| ensures tail[i] == ms[k + 1..][i] {
        if i < |back| - 1 {
          assert tail[i] == back[i + 1];
        }
      }
    }
  }

  /** With the system messages first and another message last, the result is, up to cutting of
      contents, an in-order subsequence of the input. */
  lemma PrunedIsSubsequence(ms: seq<Message>, budget: int, p: nat) returns (at: seq<nat>)
    requires SystemsFirst(ms, p)
    ensures PickedFrom(ms, at, Pruned(ms, budget))
  {
    if budget <= 0 || Total(ms) <= budget {
      at := Range(0, |ms|);
    } else {
      var k, restored := RestoredIsPicked(ms, budget, p);
      at := ShrinkPicks(ms, Range(0, p) + Range(k, |ms|), restored, budget);
    }
  }

  /** Without a budget, or within it, nothing is changed; otherwise something is. */
  lemma UntouchedExactly(ms: seq<Message>, budget: int)
    ensures Pruned(ms, budget) == ms <==> budget <= 0 || Total(ms) <= budget
  {
    if budget > 0 {
      WithinBudget(ms, budget);
    }
  }

  /** The whole result, when the system messages come first and fit beside the last message: the system
      messages, the opening of one message where that helps, and the longest run of newest messages
      that fits. */
  lemma PrunedReads(ms: seq<Message>, budget: int, p: nat) returns (k: nat)
    requires SystemsFirst(ms, p) && 0 < budget < Total(ms)
    requires Total(ms[..p]) + Total(ms[|ms| - 1..]) <= budget
    ensures p <= k < |ms| && Total(ms[..p]) + Total(ms[k..]) <= budget
    ensures k > p ==> Total(ms[..p]) + Total(ms[k - 1..]) > budget
    ensures var opens := k > p && WorthOpening(ms[k - 1], budget - Total(ms[..p]) - Total(ms[k..]));
            Pruned(ms, budget) == ms[..p] + (if opens then [Opened(ms[k - 1])] else []) + ms[k..]
  {
    hide Refill, Total, Opened, WorthOpening, Pruned, Est, Render, NewestRun, RunOrOneCut, Systems, Core;
    var n, room := |ms| - 1, budget - Total(ms[..p]) - Total(ms[|ms| - 1..]);
    PrunedParts(ms, budget, p);
    var j := RefillIsNewest(ms[p..n], room);
    k := p + j;
    RunFits(ms, budget, p, j, room);
    var opens := k > p && WorthOpening(ms[k - 1], budget - Total(ms[..p]) - Total(ms[k..]));
    var front := if opens then [Opened(ms[k - 1])] else [];
    assert ms[k..] == ms[k..n] + [ms[n]];
    assert ms[p..n][j..] == ms[k..n] && (j > 0 ==> ms[p..n][j - 1] == ms[k - 1]);
    assert ms[..p] + (front + ms[k..n]) + [ms[n]] == ms[..p] + front + (ms[k..n] + [ms[n]]);
  }

  lemma PrunedParts(ms: seq<Message>, budget: int, p: nat)
    requires SystemsFirst(ms, p) && 0 < budget < Total(ms)
    requires Total(ms[..p]) + Total(ms[|ms| - 1..]) <= budget
    ensures Pruned(ms, budget)
            == ms[..p] + Refill(ms[p..|ms| - 1], budget - Total(ms[..p]) - Total(ms[|ms| - 1..])) + [ms[|ms| - 1]]
  {
    hide Refill, Total, Shrink, Pruned;
    SystemsArePrefix(ms, p);
    assert Middle(ms) == ms[p..|ms| - 1];
    assert ms[|ms| - 1..] == [ms[|ms| - 1]];
    TotalAppend(ms[..p], [ms[|ms| - 1]]);
    CoreSurvivesExactlyWhenItFits(ms, budget);
  }

  lemma RunFits(ms: seq<Message>, budget: int, p: nat, j: nat, room: int)
    requires p < |ms| && NewestRun(ms[p..|ms| - 1], room, j) && room >= 0
    requires room == budget - Total(ms[..p]) - Total(ms[|ms| - 1..])
    ensures p + j < |ms| && Total(ms[..p]) + Total(ms[p + j..]) <= budget
    ensures j > 0 ==> Total(ms[..p]) + Total(ms[p + j - 1..]) > budget
    ensures ms[p..|ms| - 1][j..] == ms[p + j..|ms| - 1]
    ensures room - Total(ms[p..|ms| - 1][j..]) == budget - Total(ms[..p]) - Total(ms[p + j..])
  {
    hide Total;
    RunBeforeLast(ms, p, j);
    if j > 0 {
      RunBeforeLast(ms, p, j - 1);
    }
  }

  lemma RunBeforeLast(ms: seq<Message>, p: nat, j: nat)
    requires p + j < |ms|
    ensures ms[p..|ms| - 1][j..] == ms[p + j..|ms| - 1]
    ensures ms[p + j..] == ms[p + j..|ms| - 1] + [ms[|ms| - 1]]
    ensures Total(ms[p + j..]) == Total(ms[p + j..|ms| - 1]) + Total(ms[|ms| - 1..])
  {
    assert ms[|ms| - 1..] == [ms[|ms| - 1]];
    assert ms[p + j..] == ms[p + j..|ms| - 1] + [ms[|ms| - 1]];
    TotalAppend(ms[p + j..|ms| - 1], [ms[|ms| - 1]]);
  }

  /** Where the last message is itself a system message it comes out twice. */
  lemma LastSystemIsListedTwice(ms: seq<Message>, budget: int)
    requires ms != [] && ms[|ms| - 1].role == SYSTEM
    requires 0 < budget < Total(ms) && Total(Core(ms)) <= budget
    ensures multiset(Pruned(ms, budget))[ms[|ms| - 1]] >= 2
  {
    CoreSurvivesExactlyWhenItFits(ms, budget);
    LastIsSystem(ms);
    AtBothEnds(Systems(ms), Refill(Middle(ms), budget - Total(Core(ms))), ms[|ms| - 1]);
  }

  lemma AtBothEnds(a: seq<Message>, b: seq<Message>, m: Message)
    requires m in a
    ensures multiset(a + b + [m])[m] >= 2
  {
    assert multiset(a)[m] >= 1;
    assert multiset(a + b + [m]) == multiset(a) + multiset(b) + multiset([m]);
  }

  lemma {:induction false} LastIsSystem(ms: seq<Message>)
    requires ms != [] && ms[|ms| - 1].role == SYSTEM
    ensures ms[|ms| - 1] in Systems(ms)
  {
    if |ms| > 1 {
      LastIsSystem(ms[1..]);
    }
  }

  lemma {:induction false} LongerSuffixCosts(ms: seq<Message>, a: nat, b: nat)
    requires a <= b <= |ms|
    ensures Total(ms[b..]) <= Total(ms[a..])
    decreases b - a
  {
    if a < b {
      LongerSuffixCosts(ms, a + 1, b);
      assert ms[a..][1..] == ms[a + 1..];
    }
  }

  /** A history message comes back whole exactly when it and everything newer fit the room. */
  lemma BackExactlyWhenItFits(middle: seq<Message>, room: int, q: nat) returns (k: nat, back: seq<Message>)
    requires room >= 0 && q < |middle|
    ensures k <= |middle| && RunOrOneCut(middle, k, back) && back == Refill(middle, room)
    ensures k <= q <==> Total(middle[q..]) <= room
  {
    k := RefillIsNewest(middle, room);
    back := Refill(middle, room);
    if k <= q {
      LongerSuffixCosts(middle, k, q);
    } else {
      LongerSuffixCosts(middle, q, k - 1);
    }
  }

  lemma {:induction false} SystemsHoldEvery(ms: seq<Message>, q: nat)
    requires q < |ms| && ms[q].role == SYSTEM
    ensures ms[q] in Systems(ms)
  {
    if q > 0 {
      SystemsHoldEvery(ms[1..], q - 1);
    }
  }

  lemma TailOfHistory(ms: seq<Message>, middle: seq<Message>, n: nat, q: nat)
    requires n <= q < |ms| - 1 && middle == ms[n..|ms| - 1]
    ensures middle[q - n..] == ms[q..|ms| - 1] && middle[q - n] == ms[q]
  {
  }

  lemma TwiceListed(systems: seq<Message>, middle: seq<Message>, k: nat, q: nat, m: Message, back: seq<Message>,
                    last: Message)
    requires k <= q < |middle| && RunOrOneCut(middle, k, back) && middle[q] == m && m in systems
    ensures multiset(systems + back + [last])[m] >= 2
  {
    InBoth(systems, middle, k, q, back, last);
  }

  lemma PrunedShape(ms: seq<Message>, budget: int, back: seq<Message>)
    requires |Systems(ms)| < |ms| - 1 && 0 < budget < Total(ms) && Total(Core(ms)) <= budget
    requires back == Refill(ms[|Systems(ms)|..|ms| - 1], budget - Total(Core(ms)))
    ensures Pruned(ms, budget) == Systems(ms) + back + [ms[|ms| - 1]]
  {
    hide Refill, Total, Truncate;
    CoreSurvivesExactlyWhenItFits(ms, budget);
    assert Middle(ms) == ms[|Systems(ms)|..|ms| - 1];
  }

  /** In any list, a system message that stands in the history at `q` is restored from there, beside
      its place in front, exactly when it and everything newer fit beside the core; then it comes
      out twice. */
  lemma SystemInHistoryIsDoubled(ms: seq<Message>, budget: int, q: nat) returns (k: nat, back: seq<Message>)
    requires |Systems(ms)| <= q < |ms| - 1 && ms[q].role == SYSTEM
    requires 0 < budget < Total(ms) && Total(Core(ms)) <= budget
    ensures Pruned(ms, budget) == Systems(ms) + back + [ms[|ms| - 1]]
    ensures var middle := ms[|Systems(ms)|..|ms| - 1]; k <= |middle| && RunOrOneCut(middle, k, back)
    ensures k <= q - |Systems(ms)| <==> Total(Core(ms)) + Total(ms[q..|ms| - 1]) <= budget
    ensures k <= q - |Systems(ms)| ==> multiset(Systems(ms) + back + [ms[|ms| - 1]])[ms[q]] >= 2
  {
    hide Refill, Total, Truncate;
    var middle, q' := ms[|Systems(ms)|..|ms| - 1], q - |Systems(ms)|;
    SystemsHoldEvery(ms, q);
    TailOfHistory(ms, middle, |Systems(ms)|, q);
    k, back := BackExactlyWhenItFits(middle, budget - Total(Core(ms)), q');
    PrunedShape(ms, budget, back);
    if k <= q' {
      TwiceListed(Systems(ms), middle, k, q', ms[q], back, ms[|ms| - 1]);
    }
  }

  lemma InBoth(systems: seq<Message>, middle: seq<Message>, k: nat, q: nat, back: seq<Message>, last: Message)
    requires k <= q < |middle| && RunOrOneCut(middle, k, back) && middle[q] in systems
    ensures multiset(systems + back + [last])[middle[q]] >= 2
  {
    assert middle[q] in back by {
      assert middle[k..][q - k] == middle[q];
      if back != middle[k..] {
        assert back[1 + q - k] == middle[k..][q - k];
      }
    }
    assert multiset(systems + back + [last]) == multiset(systems) + multiset(back) + multiset([last]);
  }

  /** A system message inside the history comes out twice, and the message in front of it is
      lost although it would fit: the subsequence claim needs the system messages first. */
  lemma MisplacedSystemIsDoubled()
    ensures var a, s, z := Message("user", Text("aaaaaaaa")), Message(SYSTEM, Text("s")), Message("user", Text("z"));
            Pruned([a, s, z], 5) == [s, s, z] && Total([a, s, z]) == 6 && Total([s, s, z]) == 3
  {
    var a, s, z := Message("user", Text("aaaaaaaa")), Message(SYSTEM, Text("s")), Message("user", Text("z"));
    var ms := [a, s, z];
    assert ms[1..] == [s, z] && ms[2..] == [z];
    assert [s, z][1..] == [z] && [s, s, z][1..] == [s, z];
    assert Systems([z]) == [] && Systems([s, z]) == [s] && Systems(ms) == [s];
    assert Middle(ms) == [s];
    assert Total([z]) == 1 && Total([s, z]) == 2 && Total([s, s, z]) == 3;
    assert Core(ms) == [s, z];
    assert [s][..0] == [];
    assert Refill([s], 3) == [] + [s];
    assert Restored(ms, 5) == [s, s, z];
  }
}
