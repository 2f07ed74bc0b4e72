/** Names of log files. Every running instance writes its own file, named after its
    instance id, and one rotated predecessor of it. */
module LogNames {
  import opened Bytes
  import opened Text

  const PREFIX := "mullion-"
  const SUFFIX := ".log"
  const ROTATED := ".log.1"

  function LogFileName(id: string): string { PREFIX + id + SUFFIX }

  function RotatedName(id: string): string { PREFIX + id + ROTATED }

  predicate IsNumeric(s: string) { s != "" && AllDigits(s) }

  predicate IsInstanceId(s: string) {
    var parts := Split(s, '-');
    |parts| == 2 && IsNumeric(parts[0]) && IsNumeric(parts[1])
  }

  function StripSuffix(s: string, suffix: string): Option<string> {
    if |s| >= |suffix| && s[|s| - |suffix|..] == suffix then Some(s[..|s| - |suffix|]) else None
  }

  function ParseLogName(name: string): Option<string> {
    if |name| < |PREFIX| || name[..|PREFIX|] != PREFIX then None
    else
      var rest := name[|PREFIX|..];
      var id := if StripSuffix(rest, ROTATED).Some? then StripSuffix(rest, ROTATED) else StripSuffix(rest, SUFFIX);
      if id.Some? && IsInstanceId(id.value) then id else None
  }

  /** An instance id is two numbers with a hyphen between them. */
  lemma InstanceIdShape(s: string)
    ensures IsInstanceId(s) <==> exists a, b :: IsNumeric(a) && IsNumeric(b) && s == a + "-" + b
  {
    if IsInstanceId(s) {
      JoinSplit(s, '-');
      var parts := Split(s, '-');
      assert parts == [parts[0], parts[1]];
      assert parts[..1] == [parts[0]];
      assert s == parts[0] + "-" + parts[1];
    }
    if a, b :| IsNumeric(a) && IsNumeric(b) && s == a + "-" + b {
      SplitNone(a, '-');
      SplitPiece(a, b, '-');
      assert s == a + ['-'] + b;
    }
  }

  /** The parser accepts exactly the two names a well-formed id gives rise to, so the
      files it hands to the clean-up belong to one instance each, and every file an
      instance writes is found again. */
  lemma ParseExactly(name: string, id: string)
    ensures ParseLogName(name) == Some(id) <==>
            IsInstanceId(id) && (name == LogFileName(id) || name == RotatedName(id))
  {
    hide IsInstanceId;
    Suffixes(id);
    if name == LogFileName(id) {
      assert name[..|PREFIX|] == PREFIX && name[|PREFIX|..] == id + SUFFIX;
    } else if name == RotatedName(id) {
      assert name[..|PREFIX|] == PREFIX && name[|PREFIX|..] == id + ROTATED;
    }
    if ParseLogName(name) == Some(id) {
      var rest := name[|PREFIX|..];
      assert name == PREFIX + rest;
      if StripSuffix(rest, ROTATED).Some? {
        assert rest == id + ROTATED;
        assert name == RotatedName(id);
      } else {
        assert rest == id + SUFFIX;
        assert name == LogFileName(id);
      }
    }
  }

  lemma Suffixes(id: string)
    ensures StripSuffix(id + ROTATED, ROTATED) == Some(id)
    ensures StripSuffix(id + SUFFIX, SUFFIX) == Some(id)
    ensures StripSuffix(id + SUFFIX, ROTATED) == None
  {
    var s := id + SUFFIX;
    assert s[|s| - 1] == 'g';
    if |s| >= |ROTATED| {
      var t := s[|s| - |ROTATED|..];
      assert t[|t| - 1] == 'g';
    }
  }

  /** Any other file named alike, such as an exported copy, is left alone. */
  lemma OnlyInstancesParse(id: string)
    ensures ParseLogName(LogFileName(id)) == if IsInstanceId(id) then Some(id) else None
  {
    hide IsInstanceId;
    Suffixes(id);
    var name := LogFileName(id);
    assert name[..|PREFIX|] == PREFIX && name[|PREFIX|..] == id + SUFFIX;
  }
}
