/** Text handled character by character: splitting at a separator, decimal digits, and
    the dictionary order of strings. */
module Text {
  predicate IsDigit(c: char) { '0' <= c <= '9' }

  predicate AllDigits(s: string) { forall i :: 0 <= i < |s| ==> IsDigit(s[i]) }

  /** The pieces of a string between separators; always at least one. */
  function Split(s: string, sep: char): (parts: seq<string>)
    ensures parts != []
  {
    if s == "" then [""]
    else
      var n := |s| - 1;
      var parts := Split(s[..n], sep);
      if s[n] == sep then parts + [""]
      else parts[..|parts| - 1] + [parts[|parts| - 1] + [s[n]]]
  }

  function Join(parts: seq<string>, sep: char): string {
    if parts == [] then ""
    else if |parts| == 1 then parts[0]
    else Join(parts[..|parts| - 1], sep) + [sep] + parts[|parts| - 1]
  }

  lemma {:induction false} SplitPiece(a: string, b: string, sep: char)
    requires sep !in b
    ensures Split(a + [sep] + b, sep) == Split(a, sep) + [b]
    decreases |b|
  {
    var s := a + [sep] + b;
    if b == "" {
      assert s[..|s| - 1] == a;
    } else {
      var m := |b| - 1;
      SplitPiece(a, b[..m], sep);
      assert s[..|s| - 1] == a + [sep] + b[..m];
      assert b == b[..m] + [b[m]];
    }
  }

  lemma {:induction false} SplitNone(s: string, sep: char)
    requires sep !in s
    ensures Split(s, sep) == [s]
    decreases |s|
  {
    if s != "" {
      SplitNone(s[..|s| - 1], sep);
      assert s == s[..|s| - 1] + [s[|s| - 1]];
    }
  }

  /** Splitting and joining are inverse: nothing of the string is lost. */
  lemma {:induction false} JoinSplit(s: string, sep: char)
    ensures Join(Split(s, sep), sep) == s
    decreases |s|
  {
    if s != "" {
      var n := |s| - 1;
      hide Join;
      JoinSplit(s[..n], sep);
      var parts := Split(s[..n], sep);
      var k := |parts| - 1;
      assert s == s[..n] + [s[n]];
      if s[n] == sep {
        JoinMore(parts, "", sep);
      } else {
        assert parts == parts[..k] + [parts[k]];
        JoinLonger(parts[..k], parts[k], s[n], sep);
      }
    }
  }

  lemma JoinMore(parts: seq<string>, last: string, sep: char)
    requires parts != []
    ensures Join(parts + [last], sep) == Join(parts, sep) + [sep] + last
  {
    assert (parts + [last])[..|parts|] == parts;
  }

  lemma JoinLonger(parts: seq<string>, last: string, c: char, sep: char)
    ensures Join(parts + [last + [c]], sep) == Join(parts + [last], sep) + [c]
  {
    if parts != [] {
      JoinMore(parts, last + [c], sep);
      JoinMore(parts, last, sep);
    }
  }

  /** Dictionary order. */
  predicate Less(a: string, b: string) {
    if b == "" then false
    else if a == "" then true
    else a[0] < b[0] || (a[0] == b[0] && Less(a[1..], b[1..]))
  }

  /** The first `k` characters agree, and then `a` ends or has the smaller one. */
  predicate DecidedAt(a: string, b: string, k: nat) {
    k <= |a| && k < |b| && a[..k] == b[..k] && (k == |a| || a[k] < b[k])
  }

  lemma {:induction false} LessIff(a: string, b: string)
    ensures Less(a, b) <==> exists k: nat :: DecidedAt(a, b, k)
    decreases |a|
  {
    if a == "" || b == "" || a[0] != b[0] {
      assert a[..0] == b[..0];
      assert DecidedAt(a, b, 0) <==> b != "" && (a == "" || a[0] < b[0]);
      DecidedAtOnce(a, b);
    } else {
      LessIff(a[1..], b[1..]);
      forall k: nat ensures DecidedAt(a, b, k + 1) <==> DecidedAt(a[1..], b[1..], k) {
        DecidedLater(a, b, k);
      }
      assert !DecidedAt(a, b, 0);
      if Less(a, b) {
        var k: nat :| DecidedAt(a[1..], b[1..], k);
        assert DecidedAt(a, b, k + 1);
      }
      if k: nat :| DecidedAt(a, b, k) {
        DecidedLater(a, b, k - 1);
      }
    }
  }

  lemma DecidedAtOnce(a: string, b: string)
    requires a == "" || b == "" || a[0] != b[0]
    ensures forall k: nat :: DecidedAt(a, b, k) ==> k == 0
  {
    if a != "" && b != "" {
      forall k: nat | 0 < k <= |a| && k < |b| ensures a[..k] != b[..k] {
        assert a[..k][0] == a[0] && b[..k][0] == b[0];
      }
    }
  }

  lemma DecidedLater(a: string, b: string, k: nat)
    requires a != "" && b != "" && a[0] == b[0]
    ensures DecidedAt(a, b, k + 1) <==> DecidedAt(a[1..], b[1..], k)
  {
    if k < |a| && k < |b| {
      assert a[..k + 1] == [a[0]] + a[1..][..k] && b[..k + 1] == [b[0]] + b[1..][..k];
      assert a[1..][..k] == a[..k + 1][1..] && b[1..][..k] == b[..k + 1][1..];
    }
  }

  lemma {:induction false} LessIsTotal(a: string, b: string)
    ensures a == b || Less(a, b) || Less(b, a)
    ensures !(Less(a, b) && Less(b, a)) && !Less(a, a)
    decreases |a|
  {
    if a != "" && b != "" {
      LessIsTotal(a[1..], b[1..]);
      LessIsTotal(a[1..], a[1..]);
      assert a == [a[0]] + a[1..] && b == [b[0]] + b[1..];
    } else if a != "" {
      LessIsTotal(a[1..], a[1..]);
    }
  }

  lemma {:induction false} LessIsTransitive(a: string, b: string, c: string)
    requires Less(a, b) && Less(b, c)
    ensures Less(a, c)
    decreases |a|
  {
    if a != "" && a[0] == b[0] == c[0] {
      LessIsTransitive(a[1..], b[1..], c[1..]);
    }
  }
}
