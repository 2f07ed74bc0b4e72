/** Redacting logs: the table of stable aliases, the pass that replaces IPv4 addresses,
    and the pass that replaces values already seen elsewhere. */
module Redaction {
  import opened Text

  datatype Kind = User | Host | Path

  function Word(k: Kind): string {
    match k
    case User => "user"
    case Host => "host"
    case Path => "path"
  }

  function Digit(d: nat): char
    requires d < 10
  {
    "0123456789"[d]
  }

  /** A number in decimal. */
  function Dec(n: nat): string {
    if n < 10 then [Digit(n)] else Dec(n / 10) + [Digit(n % 10)]
  }

  function AliasText(k: Kind, n: nat): string { Word(k) + "#" + Dec(n) }

  datatype Table = Table(aliases: map<string, string>, counts: map<Kind, nat>)

  const BLANK: Table := Table(map[], map[])

  function Count(t: Table, k: Kind): nat {
    if k in t.counts then t.counts[k] else 0
  }

  function Alias(t: Table, k: Kind, raw: string): (Table, string) {
    if raw in t.aliases then (t, t.aliases[raw])
    else
      var a := AliasText(k, Count(t, k) + 1);
      (Table(t.aliases[raw := a], t.counts[k := Count(t, k) + 1]), a)
  }

  // ---------------------------------------------------------------------------
  // Aliases are stable and never shared.

  lemma {:induction false} DecIsDigits(n: nat)
    ensures Dec(n) != "" && AllDigits(Dec(n))
  {
    if n >= 10 {
      DecIsDigits(n / 10);
    }
  }

  lemma {:induction false} DecInjective(m: nat, n: nat)
    requires Dec(m) == Dec(n)
    ensures m == n
  {
    var a, b := Dec(m), Dec(n);
    assert a[|a| - 1] == Digit(m % 10) && b[|b| - 1] == Digit(n % 10);
    if m >= 10 {
      assert a[..|a| - 1] == Dec(m / 10) && b[..|b| - 1] == Dec(n / 10);
      DecInjective(m / 10, n / 10);
    }
  }

  lemma AliasTextInjective(j: Kind, m: nat, k: Kind, n: nat)
    requires AliasText(j, m) == AliasText(k, n)
    ensures j == k && m == n
  {
    var a, b := AliasText(j, m), AliasText(k, n);
    assert a[0] == Word(j)[0] && b[0] == Word(k)[0];
    assert a[5..] == Dec(m) && b[5..] == Dec(n);
    DecInjective(m, n);
  }

  ghost predicate Numbered(t: Table, raw: string, k: Kind, n: nat) {
    raw in t.aliases && t.aliases[raw] == AliasText(k, n) && 1 <= n <= Count(t, k)
  }

  /** Every alias is a kind and a number already given out; no two values share one. */
  ghost predicate Valid(t: Table) {
    (forall raw :: raw in t.aliases ==> exists k, n :: Numbered(t, raw, k, n)) &&
    (forall r, s :: r in t.aliases && s in t.aliases && t.aliases[r] == t.aliases[s] ==> r == s)
  }

  lemma AliasKeepsValid(t: Table, k: Kind, raw: string)
    requires Valid(t)
    ensures var u := Alias(t, k, raw).0;
            Valid(u) && raw in u.aliases && u.aliases[raw] == Alias(t, k, raw).1 &&
            forall r :: r in t.aliases ==> r in u.aliases && u.aliases[r] == t.aliases[r]
  {
    hide AliasText;
    var u := Alias(t, k, raw).0;
    if raw !in t.aliases {
      var a := AliasText(k, Count(t, k) + 1);
      assert Numbered(u, raw, k, Count(t, k) + 1);
      forall r | r in t.aliases ensures t.aliases[r] != a && exists j, n :: Numbered(u, r, j, n) {
        var j, n :| Numbered(t, r, j, n);
        assert Numbered(u, r, j, n);
        if t.aliases[r] == a {
          AliasTextInjective(j, n, k, Count(t, k) + 1);
        }
      }
    }
  }

  datatype Request = Request(kind: Kind, raw: string)

  function After(reqs: seq<Request>): Table {
    if reqs == [] then BLANK
    else
      var q := reqs[|reqs| - 1];
      Alias(After(reqs[..|reqs| - 1]), q.kind, q.raw).0
  }

  /** The alias given at request `i`. */
  function Given(reqs: seq<Request>, i: nat): string
    requires i < |reqs|
  {
    Alias(After(reqs[..i]), reqs[i].kind, reqs[i].raw).1
  }

  lemma {:induction false} GivenIsKept(reqs: seq<Request>, i: nat)
    requires i < |reqs|
    ensures Valid(After(reqs)) && reqs[i].raw in After(reqs).aliases
    ensures After(reqs).aliases[reqs[i].raw] == Given(reqs, i)
    decreases |reqs|
  {
    hide Valid, Alias;
    var n := |reqs| - 1;
    AfterIsValid(reqs[..n]);
    AliasKeepsValid(After(reqs[..n]), reqs[n].kind, reqs[n].raw);
    if i < n {
      GivenIsKept(reqs[..n], i);
      assert reqs[..n][..i] == reqs[..i];
    }
  }

  lemma {:induction false} AfterIsValid(reqs: seq<Request>)
    ensures Valid(After(reqs))
    decreases |reqs|
  {
    if reqs != [] {
      hide Valid, Alias;
      var n := |reqs| - 1;
      AfterIsValid(reqs[..n]);
      AliasKeepsValid(After(reqs[..n]), reqs[n].kind, reqs[n].raw);
    }
  }

  /** Over a whole export, whatever is asked for and under whatever kind: two values get
      the same alias if and only if they are the same value. */
  lemma AliasesIdentify(reqs: seq<Request>, i: nat, j: nat)
    requires i < |reqs| && j < |reqs|
    ensures Given(reqs, i) == Given(reqs, j) <==> reqs[i].raw == reqs[j].raw
  {
    GivenIsKept(reqs, i);
    GivenIsKept(reqs, j);
  }

  // ---------------------------------------------------------------------------
  // IPv4 addresses.

  predicate InAddress(c: char) { IsDigit(c) || c == '.' }

  function Value(s: string): nat
    requires AllDigits(s)
  {
    if s == "" then 0 else 10 * Value(s[..|s| - 1]) + (s[|s| - 1] as int - '0' as int)
  }

  /** A number from 0 to 255; a plus sign in front is accepted. */
  predicate ParsesAsByte(s: string) {
    var digits := if s != "" && s[0] == '+' then s[1..] else s;
    digits != "" && AllDigits(digits) && Value(digits) <= 255
  }

  predicate IsIpv4(s: string) {
    var parts := Split(s, '.');
    |parts| == 4 && forall p :: p in parts ==> p != "" && |p| <= 3 && ParsesAsByte(p)
  }

  /** The end of the run of such characters starting at `i`. */
  function RunEnd(s: string, i: nat, within: char -> bool): (j: nat)
    requires i <= |s|
    ensures i <= j <= |s|
    ensures forall k :: i <= k < j ==> within(s[k])
    ensures j < |s| ==> !within(s[j])
    decreases |s| - i
  {
    if i < |s| && within(s[i]) then RunEnd(s, i + 1, within) else i
  }

  function ReplaceAddresses(t: Table, s: string, i: nat): (Table, string)
    requires i <= |s|
    decreases |s| - i
  {
    if i == |s| then (t, "")
    else if IsDigit(s[i]) then
      var j := RunEnd(s, i, InAddress);
      assert j > i;
      var run := s[i..j];
      if IsIpv4(run) then
        var a := Alias(t, Host, run);
        var r := ReplaceAddresses(a.0, s, j);
        (r.0, a.1 + r.1)
      else
        var r := ReplaceAddresses(t, s, j);
        (r.0, run + r.1)
    else
      var r := ReplaceAddresses(t, s, i + 1);
      (r.0, [s[i]] + r.1)
  }

  /** No run of digits and dots that begins with a digit is an address. */
  predicate NoAddress(s: string, i: nat)
    requires i <= |s|
    decreases |s| - i
  {
    i == |s| ||
    if IsDigit(s[i]) then
      var j := RunEnd(s, i, InAddress);
      assert j > i;
      !IsIpv4(s[i..j]) && NoAddress(s, j)
    else NoAddress(s, i + 1)
  }

  lemma {:induction false} NothingToReplace(t: Table, s: string, i: nat)
    requires i <= |s| && NoAddress(s, i)
    ensures ReplaceAddresses(t, s, i) == (t, s[i..])
    decreases |s| - i
  {
    hide IsIpv4;
    assert s[|s|..] == "";
    if i < |s| {
      if IsDigit(s[i]) {
        var j := RunEnd(s, i, InAddress);
        NothingToReplace(t, s, j);
        assert s[i..j] + s[j..] == s[i..];
      } else {
        NothingToReplace(t, s, i + 1);
        assert [s[i]] + s[i + 1..] == s[i..];
      }
    }
  }

  lemma {:induction false} RunEndShift(p: string, s: string, i: nat, within: char -> bool)
    requires i <= |s|
    ensures RunEnd(p + s, |p| + i, within) == |p| + RunEnd(s, i, within)
  {
    var j := RunEnd(s, i, within);
    forall k | |p| + i <= k < |p| + j ensures within((p + s)[k]) {
      assert (p + s)[k] == s[k - |p|];
    }
    assert j < |s| ==> (p + s)[|p| + j] == s[j];
  }

  /** Looking only ahead, the check does not depend on what was written before. */
  /** A run does not cross a seam between characters not both of the run. */
  lemma {:induction false} RunEndConcat(p: string, s: string, i: nat, within: char -> bool)
    requires i < |p| && within(p[i]) && (s == "" || !within(p[|p| - 1]) || !within(s[0]))
    ensures RunEnd(p + s, i, within) == RunEnd(p, i, within)
    decreases |p| - i
  {
    assert (p + s)[i] == p[i];
    if i + 1 == |p| {
      assert s != "" ==> (p + s)[|p|] == s[0];
    } else {
      assert (p + s)[i + 1] == p[i + 1];
      if within(p[i + 1]) {
        RunEndConcat(p, s, i + 1, within);
      }
    }
  }

  lemma {:induction false} NoAddressShift(p: string, s: string, i: nat)
    requires i <= |s|
    ensures NoAddress(p + s, |p| + i) <==> NoAddress(s, i)
    decreases |s| - i
  {
    hide IsIpv4, RunEnd;
    if i < |s| {
      assert (p + s)[|p| + i] == s[i];
      if IsDigit(s[i]) {
        var j := RunEnd(s, i, InAddress);
        RunEndShift(p, s, i, InAddress);
        assert (p + s)[|p| + i..|p| + j] == s[i..j];
        NoAddressShift(p, s, j);
      } else {
        NoAddressShift(p, s, i + 1);
      }
    }
  }

  /** A run followed by text that does not continue it. */
  lemma NoAddressAfterRun(run: string, rest: string)
    requires run != "" && IsDigit(run[0]) && (forall k :: 0 <= k < |run| ==> InAddress(run[k]))
    requires rest != "" ==> !InAddress(rest[0])
    ensures NoAddress(run + rest, 0) <==> !IsIpv4(run) && NoAddress(rest, 0)
  {
    hide IsIpv4;
    var s := run + rest;
    assert rest != "" ==> s[|run|] == rest[0];
    assert s[0] == run[0] && s[0..|run|] == run;
    NoAddressShift(run, rest, 0);
  }

  lemma {:induction false} NoAddressAfterOthers(p: string, s: string, i: nat)
    requires i <= |p| && forall k :: i <= k < |p| ==> !IsDigit(p[k])
    ensures NoAddress(p + s, i) <==> NoAddress(s, 0)
    decreases |p| - i
  {
    if i == |p| {
      NoAddressShift(p, s, 0);
    } else {
      assert (p + s)[i] == p[i];
      NoAddressAfterOthers(p, s, i + 1);
    }
  }

  lemma NumberIsNoAddress(n: nat)
    ensures !IsIpv4(Dec(n))
  {
    DecIsDigits(n);
    SplitNone(Dec(n), '.');
  }

  lemma NoAddressAfterAlias(k: Kind, n: nat, rest: string)
    requires rest != "" ==> !InAddress(rest[0])
    requires NoAddress(rest, 0)
    ensures NoAddress(AliasText(k, n) + rest, 0)
  {
    hide IsIpv4, NoAddress, Dec;
    DecIsDigits(n);
    NumberIsNoAddress(n);
    NoAddressAfterRun(Dec(n), rest);
    NoAddressAfterOthers(Word(k) + "#", Dec(n) + rest, 0);
    assert AliasText(k, n) + rest == Word(k) + "#" + (Dec(n) + rest);
  }

  lemma {:induction false} OutputHasNoAddress(t: Table, s: string, i: nat)
    requires i <= |s| && Valid(t)
    ensures NoAddress(ReplaceAddresses(t, s, i).1, 0) && Valid(ReplaceAddresses(t, s, i).0)
    decreases |s| - i
  {
    hide IsIpv4, Valid, Alias, NoAddress, AliasText;
    if i == |s| {
      assert NoAddress("", 0) by { EmptyHasNoAddress(); }
    } else if IsDigit(s[i]) {
      var j := RunEnd(s, i, InAddress);
      var run := s[i..j];
      if IsIpv4(run) {
        var a := Alias(t, Host, run);
        AliasKeepsValid(t, Host, run);
        OutputHasNoAddress(a.0, s, j);
        var k, n := AliasShape(a.0, run);
        NoAddressAfterAlias(k, n, ReplaceAddresses(a.0, s, j).1);
      } else {
        OutputHasNoAddress(t, s, j);
        NoAddressAfterRun(run, ReplaceAddresses(t, s, j).1);
      }
    } else {
      OutputHasNoAddress(t, s, i + 1);
      NoAddressAfterOthers([s[i]], ReplaceAddresses(t, s, i + 1).1, 0);
    }
  }

  lemma EmptyHasNoAddress()
    ensures NoAddress("", 0)
  {
  }

  lemma AliasShape(t: Table, raw: string) returns (k: Kind, n: nat)
    requires Valid(t) && raw in t.aliases
    ensures t.aliases[raw] == AliasText(k, n) && n >= 1
  {
    k, n :| Numbered(t, raw, k, n);
  }

  /** Replacing addresses leaves none: in the output no run of digits and dots is an
      address, so applying the pass to its own output changes neither text nor table. */
  lemma AddressesAreGone(t: Table, s: string)
    requires Valid(t)
    ensures var r := ReplaceAddresses(t, s, 0);
            NoAddress(r.1, 0) && ReplaceAddresses(r.0, r.1, 0) == r
  {
    OutputHasNoAddress(t, s, 0);
    var r := ReplaceAddresses(t, s, 0);
    NothingToReplace(r.0, r.1, 0);
    assert r.1[0..] == r.1;
  }

  // ---------------------------------------------------------------------------
  // Values seen elsewhere, standing bare in the text.

  predicate IsHostChar(c: char) { 'a' <= c <= 'z' || 'A' <= c <= 'Z' || IsDigit(c) || c == '-' || c == '.' }

  predicate IsToken(s: string) { s != "" && forall k :: 0 <= k < |s| ==> IsHostChar(s[k]) }

  function ReplaceKnown(t: Table, s: string, i: nat): string
    requires i <= |s|
    decreases |s| - i
  {
    if i == |s| then ""
    else if IsHostChar(s[i]) then
      var j := RunEnd(s, i, IsHostChar);
      assert j > i;
      var run := s[i..j];
      (if run in t.aliases then t.aliases[run] else run) + ReplaceKnown(t, s, j)
    else [s[i]] + ReplaceKnown(t, s, i + 1)
  }

  lemma ReplaceKnownSplits(t: Table, run: string, rest: string)
    requires IsToken(run) && (rest != "" ==> !IsHostChar(rest[0]))
    ensures ReplaceKnown(t, run + rest, 0) == (if run in t.aliases then t.aliases[run] else run) + ReplaceKnown(t, rest, 0)
  {
    var s := run + rest;
    assert rest != "" ==> s[|run|] == rest[0];
    assert s[0] == run[0] && s[0..|run|] == run;
    ReplaceKnownShift(t, run, rest, 0);
  }

  lemma {:induction false} ReplaceKnownShift(t: Table, p: string, s: string, i: nat)
    requires i <= |s|
    ensures ReplaceKnown(t, p + s, |p| + i) == ReplaceKnown(t, s, i)
    decreases |s| - i
  {
    hide IsHostChar, RunEnd;
    if i < |s| {
      assert (p + s)[|p| + i] == s[i];
      if IsHostChar(s[i]) {
        var j := RunEnd(s, i, IsHostChar);
        RunEndShift(p, s, i, IsHostChar);
        assert (p + s)[|p| + i..|p| + j] == s[i..j];
        ReplaceKnownShift(t, p, s, j);
      } else {
        ReplaceKnownShift(t, p, s, i + 1);
      }
    }
  }

  lemma ReplaceKnownMark(t: Table, c: char, rest: string)
    requires !IsHostChar(c)
    ensures ReplaceKnown(t, [c] + rest, 0) == [c] + ReplaceKnown(t, rest, 0)
  {
    assert ([c] + rest)[0] == c;
    ReplaceKnownShift(t, [c], rest, 0);
  }

  function Known(t: Table, run: string): string {
    if run in t.aliases then t.aliases[run] else run
  }

  lemma WordIsToken(k: Kind)
    ensures IsToken(Word(k))
  {
  }

  lemma NumberIsToken(n: nat)
    ensures IsToken(Dec(n))
  {
    DecIsDigits(n);
  }

  /** What the pass makes of an alias. */
  lemma KnownInAlias(t: Table, k: Kind, n: nat, rest: string)
    requires rest != "" ==> !IsHostChar(rest[0])
    ensures ReplaceKnown(t, AliasText(k, n) + rest, 0) ==
            Known(t, Word(k)) + "#" + Known(t, Dec(n)) + ReplaceKnown(t, rest, 0)
  {
    hide ReplaceKnown, IsToken, Dec;
    WordIsToken(k);
    NumberIsToken(n);
    var tail := "#" + (Dec(n) + rest);
    assert AliasText(k, n) + rest == Word(k) + tail;
    ReplaceKnownSplits(t, Word(k), tail);
    ReplaceKnownMark(t, '#', Dec(n) + rest);
    ReplaceKnownSplits(t, Dec(n), rest);
    var w, d, r := Known(t, Word(k)), Known(t, Dec(n)), ReplaceKnown(t, rest, 0);
    assert w + ("#" + (d + r)) == w + "#" + d + r;
  }

  /** Neither the word nor the number of an alias that stands for a bare value is itself a
      value with an alias. */
  ghost predicate AliasesAreOpaque(t: Table) {
    forall raw, k, n :: IsToken(raw) && Numbered(t, raw, k, n) ==> Word(k) !in t.aliases && Dec(n) !in t.aliases
  }

  lemma {:induction false} OpaqueIsStable(t: Table, s: string, i: nat)
    requires i <= |s| && Valid(t) && AliasesAreOpaque(t)
    ensures ReplaceKnown(t, ReplaceKnown(t, s, i), 0) == ReplaceKnown(t, s, i)
    decreases |s| - i
  {
    hide Valid, AliasText;
    if i < |s| {
      if IsHostChar(s[i]) {
        var j := RunEnd(s, i, IsHostChar);
        OpaqueIsStable(t, s, j);
        RunIsStable(t, s[i..j], ReplaceKnown(t, s, j));
      } else {
        OpaqueIsStable(t, s, i + 1);
        ReplaceKnownMark(t, s[i], ReplaceKnown(t, s, i + 1));
      }
    }
  }

  lemma RunIsStable(t: Table, run: string, rest: string)
    requires Valid(t) && AliasesAreOpaque(t) && IsToken(run)
    requires (rest != "" ==> !IsHostChar(rest[0])) && ReplaceKnown(t, rest, 0) == rest
    ensures ReplaceKnown(t, Known(t, run) + rest, 0) == Known(t, run) + rest
  {
    hide IsToken, ReplaceKnown;
    if run in t.aliases {
      var k, n :| Numbered(t, run, k, n);
      KnownInAlias(t, k, n, rest);
    } else {
      ReplaceKnownSplits(t, run, rest);
    }
  }

  function Marks(s: string): nat {
    if s == "" then 0 else Marks(s[..|s| - 1]) + (if s[|s| - 1] == '#' then 1 else 0)
  }

  lemma {:induction false} MarksAdd(a: string, b: string)
    ensures Marks(a + b) == Marks(a) + Marks(b)
    decreases |b|
  {
    if b == "" {
      assert a + b == a;
    } else {
      MarksAdd(a, b[..|b| - 1]);
      assert (a + b)[..|a + b| - 1] == a + b[..|b| - 1];
    }
  }

  lemma {:induction false} TokenHasNoMark(s: string)
    requires forall k :: 0 <= k < |s| ==> IsHostChar(s[k])
    ensures Marks(s) == 0
    decreases |s|
  {
    if s != "" {
      TokenHasNoMark(s[..|s| - 1]);
    }
  }

  lemma AliasHasOneMark(k: Kind, n: nat)
    ensures Marks(AliasText(k, n)) == 1
  {
    NumberIsToken(n);
    TokenHasNoMark(Word(k));
    TokenHasNoMark(Dec(n));
    MarksAdd(Word(k) + "#", Dec(n));
    MarksAdd(Word(k), "#");
    assert Marks("#") == 1 + Marks("#"[..0]);
  }

  /** An alias whose word or number is itself aliased does not survive a second pass. */
  lemma TransparentIsUnstable(t: Table, raw: string, k: Kind, n: nat)
    requires Valid(t) && IsToken(raw) && Numbered(t, raw, k, n)
    requires Word(k) in t.aliases || Dec(n) in t.aliases
    ensures ReplaceKnown(t, ReplaceKnown(t, raw, 0), 0) != ReplaceKnown(t, raw, 0)
  {
    hide Valid, AliasText, ReplaceKnown, Marks, Word, Dec, IsToken;
    assert raw + "" == raw;
    ReplaceKnownSplits(t, raw, "");
    NothingKnown(t);
    assert AliasText(k, n) + "" == AliasText(k, n);
    KnownInAlias(t, k, n, "");
    var w, d := Known(t, Word(k)), Known(t, Dec(n));
    KnownMarks(t, Word(k));
    KnownMarks(t, Dec(n));
    WordIsToken(k);
    NumberIsToken(n);
    AliasHasOneMark(k, n);
    ThreePieces(w, d);
    assert w + "#" + d + "" == w + "#" + d;
  }

  lemma NothingKnown(t: Table)
    ensures ReplaceKnown(t, "", 0) == ""
  {
  }

  lemma ThreePieces(w: string, d: string)
    ensures Marks(w + "#" + d) == Marks(w) + 1 + Marks(d)
  {
    MarksAdd(w + "#", d);
    MarksAdd(w, "#");
    assert Marks("#") == 1 + Marks("#"[..0]);
  }

  lemma KnownMarks(t: Table, run: string)
    requires Valid(t)
    ensures run in t.aliases ==> Marks(Known(t, run)) == 1
  {
    if run in t.aliases {
      var k, n := AliasShape(t, run);
      AliasHasOneMark(k, n);
    }
  }

  /** Applied to its own output, the pass changes nothing, on every text, if and only if no
      value with an alias is the word or the number of an alias of a bare value. */
  lemma OnePassSettlesIff(t: Table)
    requires Valid(t)
    ensures AliasesAreOpaque(t) <==>
            forall s: string :: ReplaceKnown(t, ReplaceKnown(t, s, 0), 0) == ReplaceKnown(t, s, 0)
  {
    hide Valid, ReplaceKnown, IsToken, AliasText, Numbered;
    if AliasesAreOpaque(t) {
      forall s: string ensures ReplaceKnown(t, ReplaceKnown(t, s, 0), 0) == ReplaceKnown(t, s, 0) {
        OpaqueIsStable(t, s, 0);
      }
    } else {
      var raw, k, n :| IsToken(raw) && Numbered(t, raw, k, n) && (Word(k) in t.aliases || Dec(n) in t.aliases);
      TransparentIsUnstable(t, raw, k, n);
    }
  }

  /** Text is replaced piece by piece where no run crosses the seam. */
  lemma {:induction false} ReplaceKnownConcat(t: Table, p: string, s: string, i: nat)
    requires i <= |p| && (p == "" || s == "" || !IsHostChar(p[|p| - 1]) || !IsHostChar(s[0]))
    ensures ReplaceKnown(t, p + s, i) == ReplaceKnown(t, p, i) + ReplaceKnown(t, s, 0)
    decreases |p| - i
  {
    hide IsHostChar, RunEnd;
    if i == |p| {
      ReplaceKnownShift(t, p, s, 0);
    } else {
      assert (p + s)[i] == p[i];
      if IsHostChar(p[i]) {
        var j := RunEnd(p, i, IsHostChar);
        RunEndConcat(p, s, i, IsHostChar);
        assert (p + s)[i..j] == p[i..j];
        ReplaceKnownConcat(t, p, s, j);
        KnownConcat(t, p, s, i, j);
      } else {
        ReplaceKnownConcat(t, p, s, i + 1);
        var u, v, w := [p[i]], ReplaceKnown(t, p, i + 1), ReplaceKnown(t, s, 0);
        assert u + (v + w) == (u + v) + w;
      }
    }
  }

  lemma KnownConcat(t: Table, p: string, s: string, i: nat, j: nat)
    requires i < j <= |p| && IsHostChar(p[i]) && RunEnd(p, i, IsHostChar) == j
    requires (p + s)[i] == p[i] && RunEnd(p + s, i, IsHostChar) == j && (p + s)[i..j] == p[i..j]
    requires ReplaceKnown(t, p + s, j) == ReplaceKnown(t, p, j) + ReplaceKnown(t, s, 0)
    ensures ReplaceKnown(t, p + s, i) == ReplaceKnown(t, p, i) + ReplaceKnown(t, s, 0)
  {
    hide IsHostChar, RunEnd, ReplaceKnown, Known;
    KnownStep(t, p, i, j, "");
    KnownStep(t, p + s, i, j, "");
    var u, v, w := Known(t, p[i..j]), ReplaceKnown(t, p, j), ReplaceKnown(t, s, 0);
    assert u + (v + w) == (u + v) + w && "" + u == u;
    assert "" + ReplaceKnown(t, p, i) == ReplaceKnown(t, p, i);
    assert "" + ReplaceKnown(t, p + s, i) == ReplaceKnown(t, p + s, i);
  }

  predicate Apart(p: string, rest: string) {
    (p == "" || !IsHostChar(p[|p| - 1])) && (rest == "" || !IsHostChar(rest[0]))
  }

  /** An alias that stands apart from other runs is treated as if it stood alone. */
  lemma AliasInContext(t: Table, raw: string, p: string, rest: string)
    requires Valid(t) && raw in t.aliases && Apart(p, rest)
    ensures ReplaceKnown(t, p + t.aliases[raw] + rest, 0) ==
            ReplaceKnown(t, p, 0) + ReplaceKnown(t, t.aliases[raw], 0) + ReplaceKnown(t, rest, 0)
  {
    hide IsHostChar, ReplaceKnown;
    var a := t.aliases[raw];
    ReplaceKnownConcat(t, p + a, rest, 0);
    ReplaceKnownConcat(t, p, a, 0);
  }

  /** Characters a bare value cannot contain, and so ends at. */
  predicate Breaks(c: char) {
    c != '-' && c != '.' && !('0' <= c <= '9') && !('a' <= c <= 'z') && !('A' <= c <= 'Z')
  }

  /** A value with an alias is replaced by it wherever it stands between such characters, and
      the text on both sides is treated as if it stood alone. */
  lemma KnownIsReplaced(t: Table, raw: string, p: string, rest: string)
    requires raw in t.aliases && raw != "" && forall k :: 0 <= k < |raw| ==> !Breaks(raw[k])
    requires (p == "" || Breaks(p[|p| - 1])) && (rest == "" || Breaks(rest[0]))
    ensures ReplaceKnown(t, p + raw + rest, 0) == ReplaceKnown(t, p, 0) + t.aliases[raw] + ReplaceKnown(t, rest, 0)
  {
    hide ReplaceKnown, RunEnd;
    TokenIsReplaced(t, raw, p, rest);
  }

  lemma TokenIsReplaced(t: Table, raw: string, p: string, rest: string)
    requires raw in t.aliases && IsToken(raw) && Apart(p, rest)
    ensures ReplaceKnown(t, p + raw + rest, 0) == ReplaceKnown(t, p, 0) + t.aliases[raw] + ReplaceKnown(t, rest, 0)
  {
    hide IsHostChar, ReplaceKnown, IsToken, RunEnd;
    ReplaceKnownConcat(t, p, raw + rest, 0);
    ReplaceKnownSplits(t, raw, rest);
    Reassociate(p, raw, rest);
    Reassociate(ReplaceKnown(t, p, 0), t.aliases[raw], ReplaceKnown(t, rest, 0));
  }

  lemma Reassociate(a: string, b: string, c: string)
    ensures a + b + c == a + (b + c)
  {
  }

  /** The pass leaves the alias of `raw` alone, wherever it stands apart from other runs. */
  ghost predicate ReadsTheSame(t: Table, raw: string) {
    raw in t.aliases && forall p: string, rest: string :: Apart(p, rest) ==>
      ReplaceKnown(t, p + t.aliases[raw] + rest, 0) == ReplaceKnown(t, p, 0) + t.aliases[raw] + ReplaceKnown(t, rest, 0)
  }

  /** An alias survives the pass if and only if neither its word nor its number is a value
      that has an alias. */
  lemma SurvivesIff(t: Table, raw: string, k: Kind, n: nat)
    requires Valid(t) && Numbered(t, raw, k, n)
    ensures raw in t.aliases
    ensures ReadsTheSame(t, raw) <==> Word(k) !in t.aliases && Dec(n) !in t.aliases
  {
    hide Valid, AliasText, ReplaceKnown, Word, Dec, IsHostChar;
    var a := AliasText(k, n);
    UntouchedIff(t, k, n);
    if ReplaceKnown(t, a, 0) == a {
      forall p: string, rest: string | Apart(p, rest)
        ensures ReplaceKnown(t, p + a + rest, 0) == ReplaceKnown(t, p, 0) + a + ReplaceKnown(t, rest, 0)
      {
        AliasInContext(t, raw, p, rest);
      }
    } else {
      AliasInContext(t, raw, "", "");
      NothingKnown(t);
      assert "" + a + "" == a && "" + ReplaceKnown(t, a, 0) + "" == ReplaceKnown(t, a, 0);
      assert Apart("", "");
    }
  }

  lemma UntouchedIff(t: Table, k: Kind, n: nat)
    requires Valid(t)
    ensures ReplaceKnown(t, AliasText(k, n), 0) == AliasText(k, n) <==> Word(k) !in t.aliases && Dec(n) !in t.aliases
  {
    hide Valid, ReplaceKnown, Marks, Word, Dec;
    var w, d := Known(t, Word(k)), Known(t, Dec(n));
    KnownInAlias(t, k, n, "");
    NothingKnown(t);
    assert AliasText(k, n) + "" == AliasText(k, n) && w + "#" + d + "" == w + "#" + d;
    KnownMarks(t, Word(k));
    KnownMarks(t, Dec(n));
    AliasHasOneMark(k, n);
    ThreePieces(w, d);
  }

  lemma NumberOf(t: Table, raw: string) returns (k: Kind, n: nat)
    requires Valid(t) && raw in t.aliases
    ensures Numbered(t, raw, k, n)
  {
    k, n :| Numbered(t, raw, k, n);
  }

  /** The exact condition: every alias reads the same wherever it stands apart, if and only
      if no value with an alias is the word or the number of an alias in use. */
  lemma AliasesSurviveIff(t: Table)
    requires Valid(t)
    ensures (forall raw :: raw in t.aliases ==> ReadsTheSame(t, raw)) <==>
            (forall raw, k, n :: Numbered(t, raw, k, n) ==> Word(k) !in t.aliases && Dec(n) !in t.aliases)
  {
    hide ReadsTheSame, Valid, Numbered, Word, Dec;
    forall raw, k, n | Numbered(t, raw, k, n)
      ensures raw in t.aliases && (ReadsTheSame(t, raw) <==> Word(k) !in t.aliases && Dec(n) !in t.aliases)
    {
      SurvivesIff(t, raw, k, n);
    }
    if forall raw, k, n :: Numbered(t, raw, k, n) ==> Word(k) !in t.aliases && Dec(n) !in t.aliases {
      forall raw | raw in t.aliases ensures ReadsTheSame(t, raw) {
        var k, n := NumberOf(t, raw);
      }
    }
  }

  /** A machine that is simply called "host" spoils its own alias. */
  lemma HostNamedHost()
    ensures var t := Alias(BLANK, Host, "host").0;
            Valid(t) && ReplaceKnown(t, "host#1", 0) == "host#1#1"
  {
    var t := Alias(BLANK, Host, "host").0;
    AliasKeepsValid(BLANK, Host, "host");
    KnownInAlias(t, Host, 1, "");
    assert AliasText(Host, 1) + "" == "host#1";
  }

  /** A machine called "path" spoils the alias of every path, although the pass settles. */
  lemma HostNamedPath()
    ensures var t := Alias(Alias(BLANK, Host, "path").0, Path, "/home/al").0;
            Valid(t) && AliasesAreOpaque(t) && t.aliases["/home/al"] == "path#1" && ReplaceKnown(t, "path#1", 0) == "host#1#1"
  {
    var t := Alias(Alias(BLANK, Host, "path").0, Path, "/home/al").0;
    hide Alias, Valid, IsToken, ReplaceKnown, AliasesAreOpaque;
    PathTable();
    PathIsOpaque(t);
    KnownInAlias(t, Path, 1, "");
    NothingKnown(t);
    assert AliasText(Path, 1) + "" == AliasText(Path, 1);
  }

  lemma PathIsOpaque(t: Table)
    requires t.aliases == map["path" := "host#1", "/home/al" := "path#1"]
    ensures AliasesAreOpaque(t)
  {
    forall raw, k, n | IsToken(raw) && Numbered(t, raw, k, n)
      ensures Word(k) !in t.aliases && Dec(n) !in t.aliases
    {
      assert raw != "/home/al" by { assert !IsHostChar("/home/al"[0]); }
      AliasTextInjective(k, n, Host, 1);
    }
  }

  lemma PathTable()
    ensures var t := Alias(Alias(BLANK, Host, "path").0, Path, "/home/al").0;
            Valid(t) && t.aliases == map["path" := "host#1", "/home/al" := "path#1"] &&
            AliasText(Host, 1) == "host#1" && AliasText(Path, 1) == "path#1"
  {
    hide Valid, AliasText, Word;
    assert Valid(BLANK) by { BlankIsValid(); }
    var u := Alias(BLANK, Host, "path").0;
    AliasKeepsValid(BLANK, Host, "path");
    AliasKeepsValid(u, Path, "/home/al");
    FirstAliases();
    assert "path" != "/home/al" by { assert "path"[0] != "/home/al"[0]; }
  }

  lemma BlankIsValid()
    ensures Valid(BLANK)
  {
  }

  lemma FirstAliases()
    ensures AliasText(Host, 1) == "host#1" && AliasText(Path, 1) == "path#1"
  {
  }

  // ---------------------------------------------------------------------------

  class Redactor {
    var aliases: map<string, string>
    var counts: map<Kind, nat>

    ghost function View(): Table
      reads this
    {
      Table(aliases, counts)
    }

    constructor ()
      ensures View() == BLANK && Valid(View())
    {
      aliases, counts := map[], map[];
    }

    method AliasFor(k: Kind, raw: string) returns (a: string)
      modifies this
      ensures (View(), a) == Alias(old(View()), k, raw)
    {
      if raw in aliases {
        return aliases[raw];
      }
      if k !in counts {
        counts := counts[k := 0];
      }
      counts := counts[k := counts[k] + 1];
      assert counts == old(counts)[k := Count(old(View()), k) + 1];
      a := AliasText(k, counts[k]);
      aliases := aliases[raw := a];
    }

    method ReplaceIpv4(s: string) returns (out: string)
      modifies this
      ensures (View(), out) == ReplaceAddresses(old(View()), s, 0)
    {
      hide IsIpv4, Alias, ReplaceAddresses, RunEnd;
      ghost var all := ReplaceAddresses(View(), s, 0);
      out := "";
      var i := 0;
      while i < |s|
        invariant i <= |s| && Outputs(View(), s, i, out, all)
      {
        ghost var t := View();
        if IsDigit(s[i]) {
          var j := EndOfAddress(s, i);
          var run := s[i..j];
          AddressStep(t, s, i, j, out, all);
          if IsIpv4(run) {
            var a := AliasFor(Host, run);
            out := out + a;
          } else {
            out := out + run;
          }
          i := j;
        } else {
          LoneStep(t, s, i, out, all);
          out := out + [s[i]];
          i := i + 1;
        }
      }
      NothingLeft(View(), s, out, all);
    }

    method EndOfAddress(s: string, i: nat) returns (j: nat)
      requires i < |s| && InAddress(s[i])
      ensures i < j <= |s| && j == RunEnd(s, i, InAddress)
    {
      j := i;
      while j < |s| && InAddress(s[j])
        invariant i <= j <= |s| && RunEnd(s, j, InAddress) == RunEnd(s, i, InAddress)
      {
        j := j + 1;
      }
    }

    method ReplaceKnownBareTokens(s: string) returns (out: string)
      modifies this
      ensures View() == old(View()) && out == ReplaceKnown(View(), s, 0)
    {
      if aliases == map[] {
        NothingIsKnown(View(), s, 0);
        return s;
      }
      hide Alias, ReplaceKnown, Known, RunEnd;
      ghost var t := View();
      out := "";
      var i := 0;
      assert out + ReplaceKnown(t, s, 0) == ReplaceKnown(t, s, 0);
      while i < |s|
        invariant i <= |s| && (0 < i < |s| && IsHostChar(s[i]) ==> !IsHostChar(s[i - 1]))
        invariant View() == t
        invariant out + ReplaceKnown(t, s, i) == ReplaceKnown(t, s, 0)
      {
        if IsHostChar(s[i]) && (i == 0 || !IsHostChar(s[i - 1])) {
          var j := EndOfRun(s, i);
          var run := s[i..j];
          KnownStep(t, s, i, j, out);
          if run in aliases {
            KnownAlias(t, run);
            var a := AliasFor(Host, run);
            out := out + a;
          } else {
            out := out + run;
          }
          i := j;
        } else {
          OtherStep(t, s, i, out);
          out := out + [s[i]];
          i := i + 1;
        }
      }
      assert out + "" == out;
    }

    method EndOfRun(s: string, i: nat) returns (j: nat)
      requires i < |s| && IsHostChar(s[i])
      ensures i < j <= |s| && j == RunEnd(s, i, IsHostChar)
    {
      j := i;
      while j < |s| && IsHostChar(s[j])
        invariant i <= j <= |s| && RunEnd(s, j, IsHostChar) == RunEnd(s, i, IsHostChar)
      {
        j := j + 1;
      }
    }
  }

  lemma KnownStep(t: Table, s: string, i: nat, j: nat, out: string)
    requires i < j <= |s| && IsHostChar(s[i]) && RunEnd(s, i, IsHostChar) == j
    ensures out + ReplaceKnown(t, s, i) == out + Known(t, s[i..j]) + ReplaceKnown(t, s, j)
  {
    assert ReplaceKnown(t, s, i) == Known(t, s[i..j]) + ReplaceKnown(t, s, j);
  }

  lemma OtherStep(t: Table, s: string, i: nat, out: string)
    requires i < |s| && !IsHostChar(s[i])
    ensures out + ReplaceKnown(t, s, i) == out + [s[i]] + ReplaceKnown(t, s, i + 1)
  {
    assert ReplaceKnown(t, s, i) == [s[i]] + ReplaceKnown(t, s, i + 1);
  }

  /** With `out` written and the rest of `s` to go, the pass will end in `all`. */
  ghost predicate Outputs(t: Table, s: string, i: nat, out: string, all: (Table, string))
    requires i <= |s|
  {
    ReplaceAddresses(t, s, i).0 == all.0 && out + ReplaceAddresses(t, s, i).1 == all.1
  }

  lemma AddressStep(t: Table, s: string, i: nat, j: nat, out: string, all: (Table, string))
    requires i < j <= |s| && IsDigit(s[i]) && RunEnd(s, i, InAddress) == j && Outputs(t, s, i, out, all)
    ensures if IsIpv4(s[i..j]) then Outputs(Alias(t, Host, s[i..j]).0, s, j, out + Alias(t, Host, s[i..j]).1, all)
            else Outputs(t, s, j, out + s[i..j], all)
  {
    hide IsIpv4, Alias;
    var run := s[i..j];
    if IsIpv4(run) {
      var a := Alias(t, Host, run);
      var rest := ReplaceAddresses(a.0, s, j).1;
      assert out + a.1 + rest == out + (a.1 + rest);
    } else {
      var rest := ReplaceAddresses(t, s, j).1;
      assert out + run + rest == out + (run + rest);
    }
  }

  lemma LoneStep(t: Table, s: string, i: nat, out: string, all: (Table, string))
    requires i < |s| && !IsDigit(s[i]) && Outputs(t, s, i, out, all)
    ensures Outputs(t, s, i + 1, out + [s[i]], all)
  {
    var rest := ReplaceAddresses(t, s, i + 1).1;
    assert out + [s[i]] + rest == out + ([s[i]] + rest);
  }

  lemma NothingLeft(t: Table, s: string, out: string, all: (Table, string))
    requires Outputs(t, s, |s|, out, all)
    ensures (t, out) == all
  {
    assert out + "" == out;
  }

  lemma KnownAlias(t: Table, raw: string)
    requires raw in t.aliases
    ensures Alias(t, Host, raw) == (t, Known(t, raw))
  {
  }

  lemma {:induction false} NothingIsKnown(t: Table, s: string, i: nat)
    requires i <= |s| && t.aliases == map[]
    ensures ReplaceKnown(t, s, i) == s[i..]
    decreases |s| - i
  {
    if i < |s| {
      if IsHostChar(s[i]) {
        var j := RunEnd(s, i, IsHostChar);
        NothingIsKnown(t, s, j);
        assert s[i..j] + s[j..] == s[i..];
      } else {
        NothingIsKnown(t, s, i + 1);
      }
    }
  }
}
