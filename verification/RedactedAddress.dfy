/** What counts as an IPv4 address, and that redaction touches nothing else. */
module RedactedAddresses {
  import opened Text
  import opened Redaction

  /** One of the four numbers: up to three characters, digits of a number up to 255, the
      first of which may be a plus sign instead. */
  predicate Octet(p: string) {
    |p| <= 3 && ParsesAsByte(p)
  }

  function Dotted(a: string, b: string, c: string, d: string): string {
    a + ['.'] + b + ['.'] + c + ['.'] + d
  }

  lemma OctetHasNoDot(p: string)
    requires Octet(p)
    ensures p != "" && '.' !in p
  {
    assert p[0] == '+' || p == p[0..];
    forall c | c in p ensures c != '.' {
      var i :| 0 <= i < |p| && p[i] == c;
      if i > 0 && p[0] == '+' {
        assert p[1..][i - 1] == c;
      }
    }
  }

  /** An address is four such numbers with dots between them. */
  lemma AddressShape(s: string)
    ensures IsIpv4(s) <==> exists a, b, c, d :: Octet(a) && Octet(b) && Octet(c) && Octet(d) && s == Dotted(a, b, c, d)
  {
    if IsIpv4(s) {
      var parts := Split(s, '.');
      JoinSplit(s, '.');
      FourParts(parts);
      assert forall i :: 0 <= i < 4 ==> parts[i] in parts;
      assert Octet(parts[0]) && Octet(parts[1]) && Octet(parts[2]) && Octet(parts[3]);
    }
    if a, b, c, d :| Octet(a) && Octet(b) && Octet(c) && Octet(d) && s == Dotted(a, b, c, d) {
      OctetHasNoDot(a);
      OctetHasNoDot(b);
      OctetHasNoDot(c);
      OctetHasNoDot(d);
      DottedIffOctets(a, b, c, d);
    }
  }

  lemma FourParts(parts: seq<string>)
    requires |parts| == 4
    ensures Join(parts, '.') == Dotted(parts[0], parts[1], parts[2], parts[3])
  {
    var a, b, c, d := parts[0], parts[1], parts[2], parts[3];
    JoinMore([a], b, '.');
    JoinMore([a, b], c, '.');
    JoinMore([a, b, c], d, '.');
    assert parts == [a, b, c] + [d] && [a, b, c] == [a, b] + [c] && [a, b] == [a] + [b];
  }

  lemma DottedParts(a: string, b: string, c: string, d: string)
    requires '.' !in a && '.' !in b && '.' !in c && '.' !in d
    ensures Split(Dotted(a, b, c, d), '.') == [a, b, c, d]
  {
    SplitNone(a, '.');
    SplitPiece(a, b, '.');
    SplitPiece(a + ['.'] + b, c, '.');
    SplitPiece(a + ['.'] + b + ['.'] + c, d, '.');
  }

  lemma DottedIffOctets(a: string, b: string, c: string, d: string)
    requires '.' !in a && '.' !in b && '.' !in c && '.' !in d
    ensures IsIpv4(Dotted(a, b, c, d)) <==> Octet(a) && Octet(b) && Octet(c) && Octet(d)
  {
    DottedParts(a, b, c, d);
    hide *;
    var parts := [a, b, c, d];
    EmptyIsNoOctet();
    IsAddress(Dotted(a, b, c, d), parts);
  }

  lemma IsAddress(s: string, parts: seq<string>)
    requires Split(s, '.') == parts && |parts| == 4
    ensures IsIpv4(s) <==> parts[0] != "" && Octet(parts[0]) && parts[1] != "" && Octet(parts[1]) &&
                           parts[2] != "" && Octet(parts[2]) && parts[3] != "" && Octet(parts[3])
  {
    hide Split, ParsesAsByte;
    assert forall i :: 0 <= i < 4 ==> parts[i] in parts;
  }

  lemma EmptyIsNoOctet()
    ensures !Octet("")
  {
  }

  lemma {:induction false} DecHasValue(n: nat)
    ensures AllDigits(Dec(n)) && Value(Dec(n)) == n
    ensures n <= 255 ==> |Dec(n)| <= 3
    decreases n
  {
    DecIsDigits(n);
    if n >= 10 {
      DecHasValue(n / 10);
      LastDigit(n);
      assert n <= 255 ==> n / 10 < 100 && n / 10 / 10 < 10;
    } else {
      assert Dec(n)[..0] == "";
    }
  }

  lemma LastDigit(n: nat)
    requires n >= 10 && AllDigits(Dec(n / 10)) && AllDigits(Dec(n)) && Value(Dec(n / 10)) == n / 10
    ensures Value(Dec(n)) == n
  {
    var s := Dec(n);
    assert s[..|s| - 1] == Dec(n / 10) && s[|s| - 1] == Digit(n % 10);
    DigitValue(n % 10);
  }

  lemma DigitValue(d: nat)
    requires d < 10
    ensures Digit(d) as int - '0' as int == d
  {
  }

  lemma DecOctet(n: nat)
    ensures Octet(Dec(n)) <==> n <= 255
    ensures '.' !in Dec(n)
  {
    DecHasValue(n);
    DecIsDigits(n);
    assert Dec(n)[0] != '+' by { assert IsDigit(Dec(n)[0]); }
  }

  /** Four numbers written out make an address if and only if none exceeds 255. */
  lemma QuadIsAddressIff(a: nat, b: nat, c: nat, d: nat)
    ensures IsIpv4(Dotted(Dec(a), Dec(b), Dec(c), Dec(d))) <==> a <= 255 && b <= 255 && c <= 255 && d <= 255
  {
    hide Dec, Dotted, IsIpv4, Octet;
    DecOctet(a);
    DecOctet(b);
    DecOctet(c);
    DecOctet(d);
    DottedIffOctets(Dec(a), Dec(b), Dec(c), Dec(d));
  }

  // ---------------------------------------------------------------------------
  // The text cut into what is kept and what is hidden.

  datatype Piece = Kept(text: string) | Hidden(address: string)

  function Original(ps: seq<Piece>): string {
    if ps == [] then ""
    else (match ps[0] case Kept(s) => s case Hidden(a) => a) + Original(ps[1..])
  }

  /** The table after asking for an alias of every address in turn. */
  function Asked(t: Table, ps: seq<Piece>): Table
    decreases |ps|
  {
    if ps == [] then t
    else Asked(match ps[0] case Kept(_) => t case Hidden(a) => Alias(t, Host, a).0, ps[1..])
  }

  /** The pieces with every address replaced by what the table has for it. */
  function Redacted(t: Table, ps: seq<Piece>): string {
    if ps == [] then ""
    else (match ps[0] case Kept(s) => s case Hidden(a) => Known(t, a)) + Redacted(t, ps[1..])
  }

  /** What is hidden are addresses, each up to its last digit or dot, and known. */
  predicate WellCut(t: Table, ps: seq<Piece>) {
    ps == [] ||
    ((ps[0].Hidden? ==> IsIpv4(ps[0].address) && ps[0].address in t.aliases &&
                        (Original(ps[1..]) != "" ==> !InAddress(Original(ps[1..])[0]))) &&
     WellCut(t, ps[1..]))
  }

  lemma {:induction false} AskedKeeps(t: Table, ps: seq<Piece>)
    requires Valid(t)
    ensures Valid(Asked(t, ps))
    ensures forall r :: r in t.aliases ==> r in Asked(t, ps).aliases && Asked(t, ps).aliases[r] == t.aliases[r]
    decreases |ps|
  {
    if ps != [] {
      hide Alias, Valid;
      if ps[0].Hidden? {
        AliasKeepsValid(t, Host, ps[0].address);
        AskedKeeps(Alias(t, Host, ps[0].address).0, ps[1..]);
      } else {
        AskedKeeps(t, ps[1..]);
      }
    }
  }

  lemma {:induction false} CutFrom(t: Table, s: string, i: nat) returns (ps: seq<Piece>)
    requires Valid(t) && i <= |s|
    ensures Original(ps) == s[i..] && WellCut(Asked(t, ps), ps)
    ensures ReplaceAddresses(t, s, i) == (Asked(t, ps), Redacted(Asked(t, ps), ps))
    decreases |s| - i
  {
    hide IsIpv4, Valid, Alias;
    if i == |s| {
      ps := [];
    } else if IsDigit(s[i]) {
      var j := RunEnd(s, i, InAddress);
      var run := s[i..j];
      assert s[i..] == run + s[j..];
      if IsIpv4(run) {
        AliasKeepsValid(t, Host, run);
        var u := Alias(t, Host, run).0;
        var rest := CutFrom(u, s, j);
        ps := [Hidden(run)] + rest;
        assert ps[1..] == rest;
        AskedKeeps(u, rest);
        assert s[j..] != "" ==> s[j..][0] == s[j];
      } else {
        var rest := CutFrom(t, s, j);
        ps := [Kept(run)] + rest;
        assert ps[1..] == rest;
      }
    } else {
      var rest := CutFrom(t, s, i + 1);
      ps := [Kept([s[i]])] + rest;
      assert ps[1..] == rest;
      assert s[i..] == [s[i]] + s[i + 1..];
    }
  }

  /** Nothing but addresses is replaced, each by its alias, and every other character stays
      where it is: the text is cut into pieces, and the output is the same pieces with
      aliases for the addresses. The table has been asked for those aliases, in order. */
  lemma OnlyAddresses(t: Table, s: string) returns (ps: seq<Piece>)
    requires Valid(t)
    ensures Original(ps) == s && WellCut(Asked(t, ps), ps)
    ensures ReplaceAddresses(t, s, 0) == (Asked(t, ps), Redacted(Asked(t, ps), ps))
  {
    ps := CutFrom(t, s, 0);
    assert s[0..] == s;
  }

  // ---------------------------------------------------------------------------
  // Which addresses are hidden.

  lemma {:induction false} ReplaceAddressesShift(t: Table, p: string, s: string, i: nat)
    requires i <= |s|
    ensures ReplaceAddresses(t, p + s, |p| + i) == ReplaceAddresses(t, s, i)
    decreases |s| - i
  {
    hide IsIpv4, Alias, RunEnd;
    if i < |s| {
      assert (p + s)[|p| + i] == s[i];
      if IsDigit(s[i]) {
        var j := RunEnd(s, i, InAddress);
        assert j > i by { RunGoesOn(s, i); }
        RunEndShift(p, s, i, InAddress);
        assert (p + s)[|p| + i..|p| + j] == s[i..j];
        ReplaceAddressesShift(t, p, s, j);
        ReplaceAddressesShift(Alias(t, Host, s[i..j]).0, p, s, j);
      } else {
        ReplaceAddressesShift(t, p, s, i + 1);
      }
    }
  }

  lemma RunGoesOn(s: string, i: nat)
    requires i < |s| && IsDigit(s[i])
    ensures RunEnd(s, i, InAddress) > i
  {
  }

  /** Text is replaced piece by piece where no run crosses the seam. */
  lemma {:induction false} ReplaceAddressesConcat(t: Table, p: string, s: string, i: nat)
    requires i <= |p| && (p == "" || s == "" || !InAddress(p[|p| - 1]) || !InAddress(s[0]))
    ensures var a := ReplaceAddresses(t, p, i);
            var b := ReplaceAddresses(a.0, s, 0);
            ReplaceAddresses(t, p + s, i) == (b.0, a.1 + b.1)
    decreases |p| - i
  {
    hide AfterRun, RunEnd, InAddress, ReplaceAddresses;
    if i == |p| {
      ReplaceAddressesShift(t, p, s, 0);
      NothingMore(t, p);
      assert "" + ReplaceAddresses(t, s, 0).1 == ReplaceAddresses(t, s, 0).1;
    } else {
      assert (p + s)[i] == p[i];
      if IsDigit(p[i]) {
        assert InAddress(p[i]) by { DigitInAddress(p[i]); }
        var j := RunEnd(p, i, InAddress);
        assert j > i by { RunGoesOn(p, i); }
        RunEndConcat(p, s, i, InAddress);
        assert (p + s)[i..j] == p[i..j];
        ReplaceAddressesConcat(AfterRun(t, p[i..j]).0, p, s, j);
        RunCase(t, p, s, i, j);
      } else {
        ReplaceAddressesConcat(t, p, s, i + 1);
        OneOther(t, p, i);
        OneOther(t, p + s, i);
        var a := ReplaceAddresses(t, p, i + 1);
        assert [p[i]] + (a.1 + ReplaceAddresses(a.0, s, 0).1) == [p[i]] + a.1 + ReplaceAddresses(a.0, s, 0).1;
      }
    }
  }

  lemma NothingMore(t: Table, s: string)
    ensures ReplaceAddresses(t, s, |s|) == (t, "")
  {
  }

  lemma OneOther(t: Table, s: string, i: nat)
    requires i < |s| && !IsDigit(s[i])
    ensures var r := ReplaceAddresses(t, s, i + 1);
            ReplaceAddresses(t, s, i) == (r.0, [s[i]] + r.1)
  {
  }

  lemma DigitInAddress(c: char)
    requires IsDigit(c)
    ensures InAddress(c)
  {
  }

  /** What a run becomes, and the table after it. */
  function AfterRun(t: Table, run: string): (Table, string) {
    if IsIpv4(run) then Alias(t, Host, run) else (t, run)
  }

  lemma OneRun(t: Table, s: string, i: nat, j: nat)
    requires i < j <= |s| && IsDigit(s[i]) && RunEnd(s, i, InAddress) == j
    ensures var run := s[i..j];
            var u := AfterRun(t, run);
            var r := ReplaceAddresses(u.0, s, j);
            ReplaceAddresses(t, s, i) == (r.0, u.1 + r.1)
  {
    hide IsIpv4, Alias, RunEnd;
  }

  lemma RunCase(t: Table, p: string, s: string, i: nat, j: nat)
    requires i < j <= |p| && IsDigit(p[i]) && RunEnd(p, i, InAddress) == j
    requires (p + s)[i] == p[i] && RunEnd(p + s, i, InAddress) == j && (p + s)[i..j] == p[i..j]
    requires var u := AfterRun(t, p[i..j]).0;
             var a := ReplaceAddresses(u, p, j);
             var b := ReplaceAddresses(a.0, s, 0);
             ReplaceAddresses(u, p + s, j) == (b.0, a.1 + b.1)
    ensures var a := ReplaceAddresses(t, p, i);
            var b := ReplaceAddresses(a.0, s, 0);
            ReplaceAddresses(t, p + s, i) == (b.0, a.1 + b.1)
  {
    hide AfterRun, RunEnd, InAddress, ReplaceAddresses;
    OneRun(t, p, i, j);
    OneRun(t, p + s, i, j);
    var u := AfterRun(t, p[i..j]);
    var a := ReplaceAddresses(u.0, p, j);
    var b := ReplaceAddresses(a.0, s, 0);
    assert u.1 + (a.1 + b.1) == u.1 + a.1 + b.1;
  }

  /** What an address must not touch on either side. */
  predicate Clear(c: char) { c != '.' && !('0' <= c <= '9') }

  lemma {:induction false} WholeRun(s: string, i: nat)
    requires i < |s| && forall k :: i <= k < |s| ==> InAddress(s[k])
    ensures RunEnd(s, i, InAddress) == |s|
    decreases |s| - i
  {
    if i + 1 < |s| {
      WholeRun(s, i + 1);
    }
  }

  /** An address is hidden wherever it stands clear of further digits and dots, and the text
      on both sides is treated as if it stood alone. A plus sign cannot be its first
      character, as no run begins with one. */
  lemma ClearAddressIsHidden(t: Table, p: string, q: string, rest: string)
    requires IsIpv4(q) && forall k :: 0 <= k < |q| ==> !Clear(q[k])
    requires q != "" && IsDigit(q[0])
    requires (p == "" || Clear(p[|p| - 1])) && (rest == "" || Clear(rest[0]))
    ensures var a := ReplaceAddresses(t, p, 0);
            var b := Alias(a.0, Host, q);
            var c := ReplaceAddresses(b.0, rest, 0);
            ReplaceAddresses(t, p + q + rest, 0) == (c.0, a.1 + b.1 + c.1)
  {
    hide IsIpv4, Alias;
    var a := ReplaceAddresses(t, p, 0);
    var b := Alias(a.0, Host, q);
    ReplaceAddressesConcat(t, p + q, rest, 0);
    ReplaceAddressesConcat(t, p, q, 0);
    WholeRun(q, 0);
    assert q[0..|q|] == q;
    assert ReplaceAddresses(a.0, q, 0) == (b.0, b.1 + "");
    assert b.1 + "" == b.1;
  }
}
