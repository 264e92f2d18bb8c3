/** The names of chunk part files and the order a sorted directory listing puts them in. */
module PartNames {

  function DigitChar(d: nat): char
    requires d < 10
  {
    '0' + d as char
  }

  function Decimal(n: nat): string {
    if n < 10 then [DigitChar(n)] else Decimal(n / 10) + [DigitChar(n % 10)]
  }

  function ZeroPad(s: string, width: nat): string {
    if |s| >= width then s else seq(width - |s|, i => '0') + s
  }

  /** A number padded with zeros to four places; a sign takes one of them. */
  function Pad4(i: int): string {
    if i >= 0 then ZeroPad(Decimal(i), 4) else "-" + ZeroPad(Decimal(-i), 3)
  }

  function PartName(fileId: string, i: int): string {
    fileId + ".part" + Pad4(i)
  }

  predicate StartsWith(s: string, prefix: string) {
    |prefix| <= |s| && s[..|prefix|] == prefix
  }

  /** The order in which names are sorted. */
  predicate Less(a: string, b: string) {
    b != "" && (a == "" || a[0] < b[0] || (a[0] == b[0] && Less(a[1..], b[1..])))
  }

  lemma {:induction false} LessIsTotal(a: string, b: string)
    ensures a == b || Less(a, b) || Less(b, a)
    ensures !(Less(a, b) && Less(b, a)) && !Less(a, a)
  {
    if a != "" && b != "" && a[0] == b[0] {
      LessIsTotal(a[1..], b[1..]);
      LessIrreflexive(a);
      assert a[1..] == b[1..] ==> a == [a[0]] + a[1..] == b;
    } else {
      LessIrreflexive(a);
    }
  }

  lemma {:induction false} LessIrreflexive(a: string)
    ensures !Less(a, a)
  {
    if a != "" {
      LessIrreflexive(a[1..]);
    }
  }

  lemma {:induction false} LessTransitive(a: string, b: string, c: string)
    requires Less(a, b) && Less(b, c)
    ensures Less(a, c)
  {
    if a != "" && a[0] == b[0] == c[0] {
      LessTransitive(a[1..], b[1..], c[1..]);
    }
  }

  lemma {:induction false} LessBehindPrefix(prefix: string, a: string, b: string)
    ensures Less(prefix + a, prefix + b) <==> Less(a, b)
  {
    if prefix == "" {
      assert prefix + a == a && prefix + b == b;
    } else {
      assert (prefix + a)[1..] == prefix[1..] + a && (prefix + b)[1..] == prefix[1..] + b;
      LessBehindPrefix(prefix[1..], a, b);
    }
  }

  lemma DecimalOfFour(n: nat)
    requires n < 10000
    ensures Pad4(n) == [DigitChar(n / 1000), DigitChar(n / 100 % 10), DigitChar(n / 10 % 10), DigitChar(n % 10)]
  {
    if n >= 10 {
      assert Decimal(n) == Decimal(n / 10) + [DigitChar(n % 10)];
      if n >= 100 {
        assert n / 10 / 10 == n / 100;
        assert Decimal(n / 10) == Decimal(n / 100) + [DigitChar(n / 10 % 10)];
        if n >= 1000 {
          assert n / 100 / 10 == n / 1000;
          assert Decimal(n / 100) == Decimal(n / 1000) + [DigitChar(n / 100 % 10)];
        }
      }
    }
  }

  lemma LessDigits(d: nat, e: nat, a: string, b: string)
    requires d < 10 && e < 10
    ensures Less([DigitChar(d)] + a, [DigitChar(e)] + b) <==> d < e || (d == e && Less(a, b))
  {
    assert ([DigitChar(d)] + a)[1..] == a && ([DigitChar(e)] + b)[1..] == b;
  }

  lemma LessFour(a: nat, b: nat, c: nat, d: nat, e: nat, f: nat, g: nat, h: nat)
    requires a < 10 && b < 10 && c < 10 && d < 10 && e < 10 && f < 10 && g < 10 && h < 10
    ensures Less([DigitChar(a), DigitChar(b), DigitChar(c), DigitChar(d)],
                 [DigitChar(e), DigitChar(f), DigitChar(g), DigitChar(h)])
            <==> a < e || (a == e && (b < f || (b == f && (c < g || (c == g && d < h)))))
  {
    LessDigits(d, h, "", "");
    assert [DigitChar(d)] + "" == [DigitChar(d)] && [DigitChar(h)] + "" == [DigitChar(h)];
    LessDigits(c, g, [DigitChar(d)], [DigitChar(h)]);
    LessDigits(b, f, [DigitChar(c), DigitChar(d)], [DigitChar(g), DigitChar(h)]);
    LessDigits(a, e, [DigitChar(b), DigitChar(c), DigitChar(d)], [DigitChar(f), DigitChar(g), DigitChar(h)]);
  }

  lemma NumbersCompareByDigits(i: nat, j: nat)
    requires i < 10000 && j < 10000
    ensures i < j
            <==> i / 1000 < j / 1000 || (i / 1000 == j / 1000 && (i / 100 % 10 < j / 100 % 10
                 || (i / 100 % 10 == j / 100 % 10 && (i / 10 % 10 < j / 10 % 10
                     || (i / 10 % 10 == j / 10 % 10 && i % 10 < j % 10)))))
  {
    LastDigit(i, j);
    LastDigit(i / 10, j / 10);
    LastDigit(i / 100, j / 100);
    DropDigits(i);
    DropDigits(j);
  }

  lemma LastDigit(i: nat, j: nat)
    ensures i < j <==> i / 10 < j / 10 || (i / 10 == j / 10 && i % 10 < j % 10)
    ensures i == j <==> i / 10 == j / 10 && i % 10 == j % 10
  {
  }

  lemma DropDigits(i: nat)
    ensures i / 10 / 10 == i / 100 && i / 100 / 10 == i / 1000
  {
  }

  /** Four-digit names sort like their numbers. */
  lemma PadOrder(i: nat, j: nat)
    requires i < 10000 && j < 10000
    ensures Less(Pad4(i), Pad4(j)) <==> i < j
  {
    DecimalOfFour(i);
    DecimalOfFour(j);
    LessFour(i / 1000, i / 100 % 10, i / 10 % 10, i % 10, j / 1000, j / 100 % 10, j / 10 % 10, j % 10);
    NumbersCompareByDigits(i, j);
  }

  lemma NameOrder(fileId: string, i: nat, j: nat)
    requires i < 10000 && j < 10000
    ensures Less(PartName(fileId, i), PartName(fileId, j)) <==> i < j
    ensures PartName(fileId, i) == PartName(fileId, j) <==> i == j
  {
    PadOrder(i, j);
    LessBehindPrefix(fileId + ".part", Pad4(i), Pad4(j));
    PadOrder(j, i);
    LessBehindPrefix(fileId + ".part", Pad4(j), Pad4(i));
    LessIsTotal(PartName(fileId, i), PartName(fileId, j));
  }

  /** Name order is index order for an upload of `n` chunks exactly when n is at most 10,000. */
  lemma NamesSortByIndexExactly(fileId: string, n: nat)
    ensures (forall i, j :: 0 <= i < j < n ==> Less(PartName(fileId, i), PartName(fileId, j))) <==> n <= 10000
  {
    forall i, j | 0 <= i < j < n && n <= 10000 ensures Less(PartName(fileId, i), PartName(fileId, j)) {
      NameOrder(fileId, i, j);
    }
    TenThousandSortsFirst(fileId);
    if n > 10000 {
      assert !Less(PartName(fileId, 9999), PartName(fileId, 10000));
    }
  }

  lemma TenThousandSortsFirst(fileId: string)
    ensures !Less(PartName(fileId, 9999), PartName(fileId, 10000))
  {
    DecimalOfFour(9999);
    assert Decimal(10) == Decimal(1) + [DigitChar(0)];
    assert Decimal(100) == Decimal(10) + [DigitChar(0)];
    assert Decimal(1000) == Decimal(100) + [DigitChar(0)];
    assert Decimal(10000) == Decimal(1000) + [DigitChar(0)];
    assert Pad4(10000)[0] == '1' && Pad4(9999)[0] == '9';
    LessBehindPrefix(fileId + ".part", Pad4(9999), Pad4(10000));
  }

  /** A part's name: the identifier, `.part` and the index in four places or more; the sign of a
      negative one takes a place. */
  lemma NamesRead(fileId: string)
    ensures PartName(fileId, 7) == fileId + ".part0007"
    ensures PartName(fileId, -7) == fileId + ".part-007"
    ensures PartName(fileId, 12345) == fileId + ".part12345"
  {
    hide ZeroPad, Decimal;
    SevenReads();
    FiveReads();
    assert fileId + ".part" + "0007" == fileId + ".part0007" && fileId + ".part" + "12345" == fileId + ".part12345";
    assert "-" + "007" == "-007" && fileId + ".part" + "-007" == fileId + ".part-007";
  }

  lemma SevenReads()
    ensures ZeroPad(Decimal(7), 4) == "0007" && ZeroPad(Decimal(7), 3) == "007"
  {
  }

  lemma FiveReads()
    ensures ZeroPad(Decimal(12345), 4) == "12345"
  {
    assert Decimal(12) == Decimal(1) + [DigitChar(2)];
    assert Decimal(123) == Decimal(12) + [DigitChar(3)];
    assert Decimal(1234) == Decimal(123) + [DigitChar(4)];
    assert Decimal(12345) == Decimal(1234) + [DigitChar(5)];
  }

  // ---- sorted listings ---------------------------------------------------------------------------

  ghost predicate Ordered(names: seq<string>) {
    forall i, j :: 0 <= i < j < |names| ==> Less(names[i], names[j])
  }

  /** `names` is the sorted listing of `all`. */
  ghost predicate Lists(names: seq<string>, all: set<string>) {
    Ordered(names) && forall x :: x in names <==> x in all
  }

  lemma {:induction false} ListingIsUnique(a: seq<string>, b: seq<string>, all: set<string>)
    requires Lists(a, all) && Lists(b, all)
    ensures a == b
    decreases |a|
  {
    assert forall k :: 0 <= k < |b| ==> b[k] in all;
    assert forall k :: 0 <= k < |a| ==> a[k] in all && a[k] in b;
    if a != [] {
      FirstIsLeast(a, b[0]);
      FirstIsLeast(b, a[0]);
      LessIsTotal(a[0], b[0]);
      TailLists(a, all);
      TailLists(b, all);
      ListingIsUnique(a[1..], b[1..], all - {a[0]});
      assert a == [a[0]] + a[1..] && b == [b[0]] + b[1..];
    }
  }

  lemma FirstIsLeast(a: seq<string>, x: string)
    requires Ordered(a) && x in a
    ensures a[0] == x || Less(a[0], x)
  {
  }

  lemma TailLists(a: seq<string>, all: set<string>)
    requires Lists(a, all) && a != []
    ensures Lists(a[1..], all - {a[0]})
  {
    LessIrreflexive(a[0]);
    forall x ensures x in a[1..] <==> x in all - {a[0]} {
      assert a == [a[0]] + a[1..];
      if x in a[1..] {
        var k :| 0 <= k < |a[1..]| && a[1..][k] == x;
        assert Less(a[0], a[k + 1]);
      }
    }
  }

  lemma {:induction false} LeastExists(all: set<string>) returns (m: string)
    requires all != {}
    ensures m in all && forall x :: x in all && x != m ==> Less(m, x)
    decreases all
  {
    m :| m in all;
    if all != {m} {
      var rest := all - {m};
      var k := LeastExists(rest);
      LessIsTotal(m, k);
      forall x | x in all && x != (if Less(m, k) then m else k)
        ensures Less(if Less(m, k) then m else k, x)
      {
        if Less(m, k) && x != k {
          LessTransitive(m, k, x);
        }
      }
      m := if Less(m, k) then m else k;
    }
  }

  method SortNames(all: set<string>) returns (names: seq<string>)
    ensures Lists(names, all)
  {
    names := [];
    var rest := all;
    while rest != {}
      invariant Ordered(names) && rest <= all
      invariant forall x :: x in names <==> x in all && x !in rest
      invariant forall i, x :: 0 <= i < |names| && x in rest ==> Less(names[i], x)
      decreases rest
    {
      ghost var least := LeastExists(rest);
      var m :| m in rest && forall x :: x in rest && x != m ==> Less(m, x);
      names := names + [m];
      rest := rest - {m};
    }
  }

  lemma {:induction false} ListingExists(all: set<string>)
    ensures exists names :: Lists(names, all)
    decreases all
  {
    if all == {} {
      assert Lists([], all);
    } else {
      var m := LeastExists(all);
      ListingExists(all - {m});
      var rest :| Lists(rest, all - {m});
      assert Lists([m] + rest, all);
    }
  }

  ghost function Sorted(all: set<string>): (names: seq<string>)
    ensures Lists(names, all)
  {
    ListingExists(all);
    var names :| Lists(names, all);
    names
  }
}
