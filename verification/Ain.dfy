/** Agent identity numbers: ain:version:org:country-city-base:domain:role:instance, and the form
    whose inner layers are encrypted, ain:version:org.layer2.layer3. */
module Ain {
  import opened Options
  import opened Text

  datatype Record = Record(version: nat, org: string, country: string, city: string, base: string,
                           domain: string, roleCode: string, instance: string)

  datatype Parsed = Clear(record: Record) | Sealed(version: nat, org: string, layer2: string, layer3: string)

  // ---- the two patterns -------------------------------------------------------------------------

  predicate Letter(c: char) {
    'a' <= c <= 'z'
  }

  predicate Digit(c: char) {
    '0' <= c <= '9'
  }

  predicate NameChar(c: char) {
    Letter(c) || Digit(c) || c == '-'
  }

  predicate Digits(s: string) {
    s != "" && forall c :: c in s ==> Digit(c)
  }

  predicate Letters(s: string, lo: nat, hi: nat) {
    lo <= |s| <= hi && forall c :: c in s ==> Letter(c)
  }

  /** A name begins with a letter or digit, goes on with hyphens too, and is at most `hi` long. */
  predicate Name(s: string, hi: nat) {
    1 <= |s| <= hi && s[0] != '-' && forall c :: c in s ==> NameChar(c)
  }

  /** A name that begins with a letter. */
  predicate Word(s: string, hi: nat) {
    Name(s, hi) && Letter(s[0])
  }

  predicate Org(s: string) {
    Name(s, 32)
  }

  predicate RecordOk(r: Record) {
    && Org(r.org) && Letters(r.country, 2, 2) && Letters(r.city, 2, 6) && Name(r.base, 24)
    && Word(r.domain, 16) && Word(r.roleCode, 32) && Name(r.instance, 36)
  }

  predicate Base64Char(c: char) {
    'A' <= c <= 'Z' || Letter(c) || Digit(c) || c == '+' || c == '/' || c == '=' || c == '_' || c == '-'
  }

  predicate Base64Text(s: string) {
    s != "" && forall c :: c in s ==> Base64Char(c)
  }

  function NumberOf(s: string): nat
    requires forall c :: c in s ==> Digit(c)
  {
    if s == "" then 0
    else
      assert Digit(s[|s| - 1]);
      10 * NumberOf(s[..|s| - 1]) + (s[|s| - 1] as int - '0' as int)
  }

  /** The end of a pattern also matches in front of one final line feed. */
  function Body(s: string): string {
    if s != "" && s[|s| - 1] == '\n' then s[..|s| - 1] else s
  }

  function ParseClear(s: string): Option<Record> {
    var p := Split(Body(s), ':');
    if |p| != 7 || p[0] != "ain" || !Digits(p[1]) then None
    else
      var g := Split(p[3], '-');
      if |g| < 3 then None
      else
        var r := Record(NumberOf(p[1]), p[2], g[0], g[1], Join(g[2..], '-'), p[4], p[5], p[6]);
        if RecordOk(r) then Some(r) else None
  }

  function ParseSealed(s: string): Option<Parsed> {
    var p := Split(Body(s), ':');
    if |p| != 3 || p[0] != "ain" || !Digits(p[1]) then None
    else
      var q := Split(p[2], '.');
      if |q| == 3 && Org(q[0]) && Base64Text(q[1]) && Base64Text(q[2])
      then Some(Sealed(NumberOf(p[1]), q[0], q[1], q[2]))
      else None
  }

  function ParseAin(s: string): Option<Parsed> {
    match ParseClear(s)
    case Some(r) => Some(Clear(r))
    case None => ParseSealed(s)
  }

  // ---- encryption and generation ------------------------------------------------------------------

  /** Segment encryption under a key and a random nonce. */
  datatype Cipher = Cipher(enc: (string, string, string) -> string, dec: (string, string) -> Option<string>)

  ghost predicate Correct(c: Cipher) {
    forall text, key, nonce :: c.dec(c.enc(text, key, nonce), key) == Some(text) && Base64Text(c.enc(text, key, nonce))
  }

  datatype Identity = Identity(org: string, country: string, city: string, base: string, role: string, instance: string)

  function Geo(country: string, city: string, base: string): string {
    country + "-" + city + "-" + base
  }

  function ClearText(id: Identity): string {
    "ain:1:" + id.org + ":" + Geo(id.country, id.city, id.base) + ":" + id.role + ":" + id.instance
  }

  /** A role without a domain prefix is refused; a missing key falls back to the clear form. */
  function GenerateAin(id: Identity, encrypt: bool, key2: string, key3: string, nonce2: string, nonce3: string,
                       cipher: Cipher): Option<string> {
    if ':' !in id.role then None
    else if !encrypt || key2 == "" || key3 == "" then Some(ClearText(id))
    else
      var parts := Split(id.role, ':');
      var domain, roleCode := parts[0], if |parts| > 1 then parts[1] else "";
      var layer2 := Geo(id.country, id.city, id.base) + ":" + domain;
      var layer3 := roleCode + ":" + id.instance;
      Some("ain:1:" + id.org + "." + cipher.enc(layer2, key2, nonce2) + "." + cipher.enc(layer3, key3, nonce3))
  }

  /** The last index of `c` in `s`, or `|s|`. */
  function LastIndexOf(s: string, c: char): (i: nat)
    ensures i <= |s|
    ensures i < |s| ==> s[i] == c && c !in s[i + 1..]
    ensures i == |s| ==> c !in s
  {
    if s == "" then 0
    else if s[|s| - 1] == c then |s| - 1
    else
      var i := LastIndexOf(s[..|s| - 1], c);
      if i == |s| - 1 then |s|
      else
        assert s[i + 1..] == s[..|s| - 1][i + 1..] + [s[|s| - 1]];
        i
  }

  /** The record in two decrypted layers: country-city-base:domain and role:instance. */
  function OpenLayers(version: nat, org: string, plain2: string, plain3: string): Option<Record> {
    var i, j := LastIndexOf(plain2, ':'), LastIndexOf(plain3, ':');
    if i == |plain2| || j == |plain3| then None
    else
      var g := Split(plain2[..i], '-');
      if |g| < 3 then None
      else Some(Record(version, org, g[0], g[1], Join(g[2..], '-'), plain2[i + 1..], plain3[..j], plain3[j + 1..]))
  }

  function ParseDecrypt(s: string, key2: string, key3: string, cipher: Cipher): Option<Record> {
    match ParseAin(s)
    case None => None
    case Some(Clear(r)) => Some(r)
    case Some(Sealed(version, org, layer2, layer3)) =>
      match (cipher.dec(layer2, key2), cipher.dec(layer3, key3))
      case (Some(plain2), Some(plain3)) => OpenLayers(version, org, plain2, plain3)
      case _ => None
  }

  // ---- parse and generate are inverse ---------------------------------------------------------------

  function IdentityOf(r: Record): Identity {
    Identity(r.org, r.country, r.city, r.base, r.domain + ":" + r.roleCode, r.instance)
  }

  /** The clear text of a record whose version is written as `digits`. */
  function Written(digits: string, r: Record): string {
    Join(["ain", digits, r.org, Geo(r.country, r.city, r.base), r.domain, r.roleCode, r.instance], ':')
  }

  /** Moving one joined part over to the text in front of it. */
  lemma Shift(front: string, part: string, rest: seq<string>)
    requires rest != []
    ensures front + ":" + Join([part] + rest, ':') == (front + ":" + part) + ":" + Join(rest, ':')
  {
    assert ([part] + rest)[1..] == rest;
    assert front + ":" + (part + [':'] + Join(rest, ':')) == (front + ":" + part) + ":" + Join(rest, ':');
  }

  lemma Join7(a: string, b: string, c: string, d: string, e: string, f: string, g: string)
    ensures Join([a, b, c, d, e, f, g], ':') == a + ":" + b + ":" + c + ":" + d + ":" + e + ":" + f + ":" + g
  {
    assert [a, b, c, d, e, f, g][1..] == [b, c, d, e, f, g] == [b] + [c, d, e, f, g];
    assert [c, d, e, f, g] == [c] + [d, e, f, g] && [d, e, f, g] == [d] + [e, f, g];
    assert [e, f, g] == [e] + [f, g] && [f, g] == [f] + [g];
    var front := a;
    Shift(front, b, [c, d, e, f, g]);
    front := front + ":" + b;
    Shift(front, c, [d, e, f, g]);
    front := front + ":" + c;
    Shift(front, d, [e, f, g]);
    front := front + ":" + d;
    Shift(front, e, [f, g]);
    front := front + ":" + e;
    Shift(front, f, [g]);
  }

  lemma ClearIsWritten(r: Record)
    ensures ClearText(IdentityOf(r)) == Written("1", r)
  {
    var geo := Geo(r.country, r.city, r.base);
    Join7("ain", "1", r.org, geo, r.domain, r.roleCode, r.instance);
    assert "ain" + ":" + "1" + ":" == "ain:1:";
    var head := "ain:1:" + r.org + ":" + geo + ":";
    assert head + (r.domain + ":" + r.roleCode) == head + r.domain + ":" + r.roleCode;
  }

  lemma SplitCons(a: string, b: string, c: char)
    requires Free(a, c)
    ensures Split(a + [c] + b, c) == [a] + Split(b, c)
  {
    IndexOfFirst(a, b, c);
    var s := a + [c] + b;
    assert s[..|a|] == a && s[|a| + 1..] == b;
  }

  /** Country and city hold no hyphen, so the base name keeps all of its own. */
  lemma GeoSplits(country: string, city: string, base: string)
    requires Free(country, '-') && Free(city, '-')
    ensures var g := Split(Geo(country, city, base), '-');
            |g| >= 3 && g[0] == country && g[1] == city && Join(g[2..], '-') == base
  {
    hide IndexOf, Split;
    var rest := city + ['-'] + base;
    assert Geo(country, city, base) == country + ['-'] + rest;
    SplitCons(country, rest, '-');
    SplitCons(city, base, '-');
    JoinSplit(base, '-');
    var g := Split(Geo(country, city, base), '-');
    assert g[2..] == Split(base, '-');
  }

  lemma LettersHaveNoHyphen(s: string, lo: nat, hi: nat)
    requires Letters(s, lo, hi)
    ensures Free(s, '-') && Free(s, ':')
  {
  }

  lemma GeoIsFree(r: Record)
    requires RecordOk(r)
    ensures Free(Geo(r.country, r.city, r.base), ':')
  {
    LettersHaveNoHyphen(r.country, 2, 2);
    LettersHaveNoHyphen(r.city, 2, 6);
  }

  lemma PartsAreFree(digits: string, r: Record)
    requires Digits(digits) && RecordOk(r)
    ensures AllFree(["ain", digits, r.org, Geo(r.country, r.city, r.base), r.domain, r.roleCode, r.instance], ':')
  {
    GeoIsFree(r);
    assert Free("ain", ':') && Free(digits, ':') && Free(r.org, ':');
    assert Free(r.domain, ':') && Free(r.roleCode, ':') && Free(r.instance, ':');
  }

  lemma WrittenEndsInName(digits: string, r: Record)
    requires RecordOk(r)
    ensures Written(digits, r) != "" && NameChar(Written(digits, r)[|Written(digits, r)| - 1])
  {
    Join7("ain", digits, r.org, Geo(r.country, r.city, r.base), r.domain, r.roleCode, r.instance);
    var s := Written(digits, r);
    assert s[|s| - 1] == r.instance[|r.instance| - 1];
    assert r.instance[|r.instance| - 1] in r.instance;
  }

  lemma ParsesWritten(digits: string, r: Record, s: string)
    requires Digits(digits) && RecordOk(r) && NumberOf(digits) == r.version
    requires Body(s) == Written(digits, r)
    ensures ParseClear(s) == Some(r)
  {
    var parts := ["ain", digits, r.org, Geo(r.country, r.city, r.base), r.domain, r.roleCode, r.instance];
    PartsAreFree(digits, r);
    SplitJoin(parts, ':');
    LettersHaveNoHyphen(r.country, 2, 2);
    LettersHaveNoHyphen(r.city, 2, 6);
    GeoSplits(r.country, r.city, r.base);
  }

  lemma GeoRejoins(g: seq<string>)
    requires |g| >= 3
    ensures Geo(g[0], g[1], Join(g[2..], '-')) == Join(g, '-')
  {
    assert g[1..][1..] == g[2..];
    var rest := Join(g[2..], '-');
    assert Join(g[1..], '-') == g[1] + ['-'] + rest;
    assert g[0] + ['-'] + (g[1] + ['-'] + rest) == g[0] + "-" + g[1] + "-" + rest;
  }

  lemma ParsedWasWritten(s: string)
    requires ParseClear(s).Some?
    ensures var p := Split(Body(s), ':');
            && Digits(p[1]) && NumberOf(p[1]) == ParseClear(s).value.version
            && Body(s) == Written(p[1], ParseClear(s).value)
  {
    JoinSplit(Body(s), ':');
    var p := Split(Body(s), ':');
    var g := Split(p[3], '-');
    JoinSplit(p[3], '-');
    GeoRejoins(g);
    SevenParts(p, ParseClear(s).value);
  }

  lemma SevenParts(p: seq<string>, r: Record)
    requires |p| == 7 && p[0] == "ain" && p[2] == r.org && p[3] == Geo(r.country, r.city, r.base)
    requires p[4] == r.domain && p[5] == r.roleCode && p[6] == r.instance
    ensures Join(p, ':') == Written(p[1], r)
  {
    assert p == ["ain", p[1], r.org, Geo(r.country, r.city, r.base), r.domain, r.roleCode, r.instance];
  }

  /** The clear parser accepts exactly the written records, each with the fields it was written
      from, with or without one final line feed. */
  lemma ParseClearExactly(s: string, r: Record)
    ensures ParseClear(s) == Some(r)
            <==> RecordOk(r) && exists d :: Digits(d) && NumberOf(d) == r.version && Body(s) == Written(d, r)
  {
    if ParseClear(s) == Some(r) {
      ParsedWasWritten(s);
    }
    if RecordOk(r) && exists d :: Digits(d) && NumberOf(d) == r.version && Body(s) == Written(d, r) {
      var d :| Digits(d) && NumberOf(d) == r.version && Body(s) == Written(d, r);
      ParsesWritten(d, r, s);
    }
  }

  lemma OneIsOne()
    ensures Digits("1") && NumberOf("1") == 1
  {
    assert NumberOf("") == 0;
    assert "1"[..0] == "";
  }

  /** Parsing what was generated gives back exactly the fields, hyphens in the base name and all;
      so distinct identities have distinct numbers. */
  lemma ParseGenerate(r: Record)
    requires RecordOk(r) && r.version == 1
    ensures ParseAin(ClearText(IdentityOf(r))) == Some(Clear(r))
    ensures ParseAin(ClearText(IdentityOf(r)) + "\n") == Some(Clear(r))
  {
    var s := ClearText(IdentityOf(r));
    ClearIsWritten(r);
    OneIsOne();
    WrittenEndsInName("1", r);
    assert Body(s) == s;
    assert (s + "\n")[..|s|] == s;
    ParsesWritten("1", r, s);
    ParsesWritten("1", r, s + "\n");
  }

  /** The number of a record of version 1, character by character, reads back as that record. */
  lemma NumberReads(r: Record)
    requires RecordOk(r) && r.version == 1
    ensures var s := "ain:1:" + r.org + ":" + r.country + "-" + r.city + "-" + r.base + ":"
                     + r.domain + ":" + r.roleCode + ":" + r.instance;
            ClearText(IdentityOf(r)) == s && ParseAin(s) == Some(Clear(r))
  {
    hide RecordOk, ParseAin;
    ParseGenerate(r);
    var front := "ain:1:" + r.org + ":";
    assert front + r.country + "-" + r.city + "-" + r.base == front + Geo(r.country, r.city, r.base);
    Regroup(front + Geo(r.country, r.city, r.base) + ":", r.domain, r.roleCode, ":" + r.instance);
    assert front + Geo(r.country, r.city, r.base) + ":" + (r.domain + ":" + r.roleCode) + (":" + r.instance)
        == ClearText(IdentityOf(r));
    assert front + Geo(r.country, r.city, r.base) + ":" + r.domain + ":" + r.roleCode + (":" + r.instance)
        == front + Geo(r.country, r.city, r.base) + ":" + r.domain + ":" + r.roleCode + ":" + r.instance;
  }

  lemma Regroup(a: string, b: string, c: string, d: string)
    ensures a + (b + ":" + c) + d == a + b + ":" + c + d
  {
    assert a + (b + ":" + c) == a + b + ":" + c;
  }

  /** A digit string counts in tens. */
  lemma VersionReads(s: string, d: char)
    requires Digits(s) && Digit(d)
    ensures NumberOf([d]) == d as int - '0' as int
    ensures NumberOf(s + [d]) == 10 * NumberOf(s) + (d as int - '0' as int)
  {
    assert (s + [d])[..|s|] == s && [d][..0] == "";
    assert NumberOf("") == 0;
  }

  /** Which fields a record may hold: lengths, first characters and alphabets of the two patterns. */
  lemma FieldsOfRecord(r: Record)
    ensures RecordOk(r) <==>
      && 1 <= |r.org| <= 32 && 1 <= |r.base| <= 24 && 1 <= |r.instance| <= 36
      && |r.country| == 2 && 2 <= |r.city| <= 6 && 1 <= |r.domain| <= 16 && 1 <= |r.roleCode| <= 32
      && r.org[0] != '-' && r.base[0] != '-' && r.instance[0] != '-'
      && 'a' <= r.domain[0] <= 'z' && 'a' <= r.roleCode[0] <= 'z'
      && (forall c :: c in r.country + r.city ==> 'a' <= c <= 'z')
      && (forall c :: c in r.org + r.base + r.domain + r.roleCode + r.instance ==>
            'a' <= c <= 'z' || '0' <= c <= '9' || c == '-')
  {
    var names := r.org + r.base + r.domain + r.roleCode + r.instance;
    assert forall c :: c in r.country + r.city <==> c in r.country || c in r.city;
    assert forall c :: c in names <==> c in r.org || c in r.base || c in r.domain || c in r.roleCode || c in r.instance;
    if RecordOk(r) {
      assert NameChar(r.domain[0]) && NameChar(r.roleCode[0]);
    } else if |r.domain| > 0 && |r.roleCode| > 0 {
      assert r.domain[0] in r.domain && r.roleCode[0] in r.roleCode;
    }
  }

  lemma DistinctIdentities(r: Record, r': Record)
    requires RecordOk(r) && RecordOk(r') && r.version == 1 && r'.version == 1 && r != r'
    ensures ClearText(IdentityOf(r)) != ClearText(IdentityOf(r'))
  {
    ParseGenerate(r);
    ParseGenerate(r');
  }

  /** No string matches both patterns. */
  lemma PatternsAreDisjoint(s: string)
    ensures ParseClear(s).None? || ParseSealed(s).None?
  {
  }

  // ---- the encrypted form -----------------------------------------------------------------------------

  lemma {:induction false} LastIndexIs(a: string, b: string, c: char)
    requires Free(b, c)
    ensures LastIndexOf(a + [c] + b, c) == |a|
    decreases |b|
  {
    var s := a + [c] + b;
    if b != "" {
      assert s[..|s| - 1] == a + [c] + b[..|b| - 1];
      LastIndexIs(a, b[..|b| - 1], c);
    }
  }

  lemma RoleSplits(r: Record)
    requires RecordOk(r)
    ensures ':' in IdentityOf(r).role && Split(IdentityOf(r).role, ':') == [r.domain, r.roleCode]
  {
    assert IdentityOf(r).role == r.domain + [':'] + r.roleCode;
    assert IdentityOf(r).role[|r.domain|] == ':';
    assert Free(r.domain, ':') && Free(r.roleCode, ':');
    SplitCons(r.domain, r.roleCode, ':');
    SplitJoin([r.roleCode], ':');
  }

  lemma Split3(a: string, b: string, c: string, sep: char)
    requires Free(a, sep) && Free(b, sep) && Free(c, sep)
    ensures Split(a + [sep] + b + [sep] + c, sep) == [a, b, c]
  {
    hide IndexOf, Split;
    assert a + [sep] + b + [sep] + c == a + [sep] + (b + [sep] + c);
    SplitCons(a, b + [sep] + c, sep);
    SplitCons(b, c, sep);
    SplitJoin([c], sep);
  }

  function SealedText(org: string, e2: string, e3: string): string {
    "ain:1:" + org + "." + e2 + "." + e3
  }

  lemma SealedSplits(inner: string, s: string)
    requires Free(inner, ':') && s == "ain:1:" + inner
    ensures Split(s, ':') == ["ain", "1", inner]
  {
    assert "ain" + [':'] + "1" + [':'] == "ain:1:";
    assert s == "ain" + [':'] + "1" + [':'] + inner;
    Split3("ain", "1", inner, ':');
  }

  lemma SealedInner(org: string, e2: string, e3: string)
    requires Org(org) && Base64Text(e2) && Base64Text(e3)
    ensures Split(org + "." + e2 + "." + e3, '.') == [org, e2, e3]
    ensures Free(org + "." + e2 + "." + e3, ':')
  {
    assert Free(e2, ':') && Free(e3, ':') && Free(org, ':');
    assert Free(e2, '.') && Free(e3, '.') && Free(org, '.');
    Split3(org, e2, e3, '.');
  }

  lemma SealedBody(org: string, e2: string, e3: string)
    requires Base64Text(e3)
    ensures SealedText(org, e2, e3) == "ain:1:" + (org + "." + e2 + "." + e3)
    ensures Body(SealedText(org, e2, e3)) == SealedText(org, e2, e3)
  {
    var s := SealedText(org, e2, e3);
    assert s[|s| - 1] == e3[|e3| - 1] && e3[|e3| - 1] in e3;
  }

  lemma SealedParses(org: string, e2: string, e3: string)
    requires Org(org) && Base64Text(e2) && Base64Text(e3)
    ensures ParseAin(SealedText(org, e2, e3)) == Some(Sealed(1, org, e2, e3))
  {
    var s := SealedText(org, e2, e3);
    SealedBody(org, e2, e3);
    SealedInner(org, e2, e3);
    SealedSplits(org + "." + e2 + "." + e3, s);
    ReadsSealed(s, ["ain", "1", org + "." + e2 + "." + e3], [org, e2, e3]);
  }

  lemma ReadsSealed(s: string, p: seq<string>, q: seq<string>)
    requires Body(s) == s && Split(s, ':') == p && |p| == 3 && p[0] == "ain" && p[1] == "1"
    requires Split(p[2], '.') == q && |q| == 3 && Org(q[0]) && Base64Text(q[1]) && Base64Text(q[2])
    ensures ParseAin(s) == Some(Sealed(1, q[0], q[1], q[2]))
  {
    OneIsOne();
  }

  /** The encrypted pattern: three parts between the colons, three between the dots of the last,
      an organisation and two non-empty layers in the base 64 alphabets. */
  lemma ParseSealedExactly(s: string, version: nat, org: string, layer2: string, layer3: string)
    ensures ParseSealed(s) == Some(Sealed(version, org, layer2, layer3))
            <==> Org(org) && layer2 != "" && layer3 != ""
                 && (forall c :: c in layer2 + layer3 ==>
                       'A' <= c <= 'Z' || 'a' <= c <= 'z' || '0' <= c <= '9' || c in "+/=_-")
                 && exists d :: Digits(d) && NumberOf(d) == version
                                && Body(s) == "ain:" + d + ":" + (org + "." + layer2 + "." + layer3)
  {
    hide Org, Base64Text, NumberOf, Body, ParseSealed;
    LayersInAlphabet(layer2, layer3);
    if ParseSealed(s) == Some(Sealed(version, org, layer2, layer3)) {
      SealedWasWritten(s);
    }
    if Org(org) && Base64Text(layer2) && Base64Text(layer3)
       && exists d :: Digits(d) && NumberOf(d) == version
                      && Body(s) == "ain:" + d + ":" + (org + "." + layer2 + "." + layer3)
    {
      var d :| Digits(d) && NumberOf(d) == version
               && Body(s) == "ain:" + d + ":" + (org + "." + layer2 + "." + layer3);
      ParsesSealed(d, org, layer2, layer3, s);
    }
  }

  lemma SealedWasWritten(s: string)
    requires ParseSealed(s).Some?
    ensures var r := ParseSealed(s).value;
            && r.Sealed? && Org(r.org) && Base64Text(r.layer2) && Base64Text(r.layer3)
            && exists d :: Digits(d) && NumberOf(d) == r.version
                           && Body(s) == "ain:" + d + ":" + (r.org + "." + r.layer2 + "." + r.layer3)
  {
    hide Split, Org, Base64Text, NumberOf;
    var p := Split(Body(s), ':');
    var q := Split(p[2], '.');
    JoinSplit(Body(s), ':');
    JoinSplit(p[2], '.');
    JoinThree(p[0], p[1], p[2], ':');
    JoinThree(q[0], q[1], q[2], '.');
    assert p == [p[0], p[1], p[2]] && q == [q[0], q[1], q[2]];
    assert "ain" + [':'] + p[1] + [':'] + p[2] == "ain:" + p[1] + ":" + p[2];
  }

  lemma ParsesSealed(d: string, org: string, layer2: string, layer3: string, s: string)
    requires Digits(d) && Org(org) && Base64Text(layer2) && Base64Text(layer3)
    requires Body(s) == "ain:" + d + ":" + (org + "." + layer2 + "." + layer3)
    ensures ParseSealed(s) == Some(Sealed(NumberOf(d), org, layer2, layer3))
  {
    var inner := org + "." + layer2 + "." + layer3;
    SealedInner(org, layer2, layer3);
    SealedHead(d, inner);
    ReadsParts(s, ["ain", d, inner], [org, layer2, layer3]);
  }

  lemma SealedHead(d: string, inner: string)
    requires Digits(d) && Free(inner, ':')
    ensures Split("ain:" + d + ":" + inner, ':') == ["ain", d, inner]
  {
    hide Split;
    assert Free("ain", ':') && Free(d, ':');
    Split3("ain", d, inner, ':');
    assert "ain" + [':'] + d + [':'] + inner == "ain:" + d + ":" + inner;
  }

  lemma ReadsParts(s: string, p: seq<string>, q: seq<string>)
    requires Split(Body(s), ':') == p && |p| == 3 && p[0] == "ain" && Digits(p[1])
    requires Split(p[2], '.') == q && |q| == 3 && Org(q[0]) && Base64Text(q[1]) && Base64Text(q[2])
    ensures ParseSealed(s) == Some(Sealed(NumberOf(p[1]), q[0], q[1], q[2]))
  {
    hide Split, NumberOf, Org, Base64Text, Body;
  }

  lemma JoinThree(a: string, b: string, c: string, sep: char)
    ensures Join([a, b, c], sep) == a + [sep] + b + [sep] + c
  {
    assert [a, b, c][1..] == [b, c] && [b, c][1..] == [c];
    assert Join([c], sep) == c;
    assert Join([b, c], sep) == b + [sep] + c;
    assert a + [sep] + (b + [sep] + c) == a + [sep] + b + [sep] + c;
  }

  lemma LayersInAlphabet(layer2: string, layer3: string)
    ensures Base64Text(layer2) && Base64Text(layer3)
            <==> layer2 != "" && layer3 != ""
                 && forall c :: c in layer2 + layer3 ==>
                      'A' <= c <= 'Z' || 'a' <= c <= 'z' || '0' <= c <= '9' || c in "+/=_-"
  {
    assert forall c :: c in layer2 + layer3 <==> c in layer2 || c in layer3;
  }

  function Layer2(r: Record): string {
    Geo(r.country, r.city, r.base) + ":" + r.domain
  }

  function Layer3(r: Record): string {
    r.roleCode + ":" + r.instance
  }

  lemma Layer2Splits(r: Record)
    requires RecordOk(r)
    ensures var i := LastIndexOf(Layer2(r), ':');
            && i < |Layer2(r)| && Layer2(r)[i + 1..] == r.domain
            && Layer2(r)[..i] == Geo(r.country, r.city, r.base)
  {
    var geo := Geo(r.country, r.city, r.base);
    assert Free(r.domain, ':');
    LastIndexIs(geo, r.domain, ':');
    assert Layer2(r) == geo + [':'] + r.domain;
  }

  lemma Layer3Splits(r: Record)
    requires RecordOk(r)
    ensures var j := LastIndexOf(Layer3(r), ':');
            j < |Layer3(r)| && Layer3(r)[..j] == r.roleCode && Layer3(r)[j + 1..] == r.instance
  {
    assert Free(r.instance, ':');
    LastIndexIs(r.roleCode, r.instance, ':');
    assert Layer3(r) == r.roleCode + [':'] + r.instance;
  }

  lemma GeneratesSealed(r: Record, key2: string, key3: string, nonce2: string, nonce3: string, cipher: Cipher)
    requires RecordOk(r) && key2 != "" && key3 != ""
    ensures GenerateAin(IdentityOf(r), true, key2, key3, nonce2, nonce3, cipher)
            == Some(SealedText(r.org, cipher.enc(Layer2(r), key2, nonce2), cipher.enc(Layer3(r), key3, nonce3)))
  {
    RoleSplits(r);
    assert Split(IdentityOf(r).role, ':')[0] == r.domain;
  }

  lemma OpensLayers(r: Record)
    requires RecordOk(r)
    ensures OpenLayers(r.version, r.org, Layer2(r), Layer3(r)) == Some(r)
  {
    Layer2Splits(r);
    Layer3Splits(r);
    LettersHaveNoHyphen(r.country, 2, 2);
    LettersHaveNoHyphen(r.city, 2, 6);
    GeoSplits(r.country, r.city, r.base);
  }

  lemma OpensSealed(r: Record, s: string, e2: string, e3: string, key2: string, key3: string, cipher: Cipher)
    requires RecordOk(r) && ParseAin(s) == Some(Sealed(r.version, r.org, e2, e3))
    requires cipher.dec(e2, key2) == Some(Layer2(r)) && cipher.dec(e3, key3) == Some(Layer3(r))
    ensures ParseDecrypt(s, key2, key3, cipher) == Some(r)
  {
    hide ParseAin, OpenLayers, Layer2, Layer3;
    OpensLayers(r);
  }

  /** The encrypted number, character by character: the organisation in the clear, the place and
      the domain under the key of the second layer, the role and the instance under that of the
      third. A role without a colon has no number in either form; what follows a second colon is
      dropped. */
  lemma SealedReads(id: Identity, encrypt: bool, key2: string, key3: string, nonce2: string, nonce3: string,
                    cipher: Cipher, parts: seq<string>)
    requires parts != [] && AllFree(parts, ':') && id.role == Join(parts, ':')
    ensures GenerateAin(id, encrypt, key2, key3, nonce2, nonce3, cipher).None? <==> |parts| == 1
    ensures |parts| > 1 && encrypt && key2 != "" && key3 != "" ==>
              GenerateAin(id, encrypt, key2, key3, nonce2, nonce3, cipher)
              == Some("ain:1:" + id.org
                      + "." + cipher.enc(id.country + "-" + id.city + "-" + id.base + ":" + parts[0], key2, nonce2)
                      + "." + cipher.enc(parts[1] + ":" + id.instance, key3, nonce3))
  {
    SplitJoin(parts, ':');
    if |parts| > 1 {
      assert id.role[|parts[0]|] == ':';
    }
  }

  /** The encrypted form shows the organisation only; with the keys it gives the same record as
      the clear form. */
  lemma DecryptAgrees(r: Record, key2: string, key3: string, nonce2: string, nonce3: string, cipher: Cipher)
    requires RecordOk(r) && r.version == 1 && Correct(cipher) && key2 != "" && key3 != ""
    ensures var s := GenerateAin(IdentityOf(r), true, key2, key3, nonce2, nonce3, cipher);
            && s.Some? && ParseAin(s.value).Some? && ParseAin(s.value).value.Sealed?
            && ParseAin(s.value).value.org == r.org
            && ParseDecrypt(s.value, key2, key3, cipher) == Some(r)
  {
    hide GenerateAin, ParseAin, ParseDecrypt, SealedText, Layer2, Layer3;
    GeneratesSealed(r, key2, key3, nonce2, nonce3, cipher);
    var e2, e3 := cipher.enc(Layer2(r), key2, nonce2), cipher.enc(Layer3(r), key3, nonce3);
    SealedParses(r.org, e2, e3);
    OpensSealed(r, SealedText(r.org, e2, e3), e2, e3, key2, key3, cipher);
  }

  /** What comes out of the layers of any encrypted number: place and domain parted at the last
      colon, role and instance likewise, country and city without hyphens. */
  lemma DecryptedReads(s: string, key2: string, key3: string, cipher: Cipher, sealed: Parsed, r: Record)
    requires ParseAin(s) == Some(sealed) && sealed.Sealed? && ParseDecrypt(s, key2, key3, cipher) == Some(r)
    ensures r.version == sealed.version && r.org == sealed.org
    ensures cipher.dec(sealed.layer2, key2) == Some(r.country + "-" + r.city + "-" + r.base + ":" + r.domain)
    ensures cipher.dec(sealed.layer3, key3) == Some(r.roleCode + ":" + r.instance)
    ensures Free(r.domain, ':') && Free(r.instance, ':') && Free(r.country, '-') && Free(r.city, '-')
  {
    hide ParseAin, Split, LastIndexOf, Join;
    var plain2, plain3 := cipher.dec(sealed.layer2, key2).value, cipher.dec(sealed.layer3, key3).value;
    var i, j := LastIndexOf(plain2, ':'), LastIndexOf(plain3, ':');
    var g := Split(plain2[..i], '-');
    JoinSplit(plain2[..i], '-');
    GeoRejoins(g);
    assert plain2 == plain2[..i] + ":" + plain2[i + 1..];
    assert plain3 == plain3[..j] + ":" + plain3[j + 1..];
  }

  /** Nothing comes out exactly when a layer does not decrypt, lacks its colon, or names no place of
      three parts. */
  lemma DecryptFailsExactly(s: string, key2: string, key3: string, cipher: Cipher, sealed: Parsed)
    requires ParseAin(s) == Some(sealed) && sealed.Sealed?
    ensures ParseDecrypt(s, key2, key3, cipher).None?
            <==> var p2, p3 := cipher.dec(sealed.layer2, key2), cipher.dec(sealed.layer3, key3);
                 || p2.None? || p3.None? || Free(p2.value, ':') || Free(p3.value, ':')
                 || CountOf(p2.value[..LastIndexOf(p2.value, ':')], '-') < 2
  {
    hide ParseAin, Split, LastIndexOf, Join, CountOf;
    if cipher.dec(sealed.layer2, key2).Some? {
      var plain2 := cipher.dec(sealed.layer2, key2).value;
      var geo := plain2[..LastIndexOf(plain2, ':')];
      JoinSplit(geo, '-');
      CountJoin(Split(geo, '-'), '-');
    }
  }

  lemma ClearNeedsNoKeys(r: Record, encrypt: bool, key2: string, key3: string, n2: string, n3: string, cipher: Cipher)
    requires RecordOk(r) && r.version == 1 && (!encrypt || key2 == "" || key3 == "")
    ensures var s := GenerateAin(IdentityOf(r), encrypt, key2, key3, n2, n3, cipher);
            s.Some? && forall k2, k3 :: ParseDecrypt(s.value, k2, k3, cipher) == Some(r)
  {
    RoleSplits(r);
    ParseGenerate(r);
  }
}
