/** Names of the temporary files of an atomic replacement, and the process that made them. */
module TempNames {
  import opened Options
  import opened Decimal

  const Suffix: string := ".mito-tmp"
  const MaxName: nat := 255
  const MaxPid: nat := 0x7FFF_FFFF
  const MaxCounter: nat := 0xFFFF_FFFF_FFFF_FFFF

  /** ".<stem>-<pid>-<counter>.mito-tmp", the stem cut so that the whole stays within the limit. */
  function MakeTempName(stem: string, pid: nat, counter: nat): string
    requires pid <= MaxPid && counter <= MaxCounter
  {
    var suffix := "-" + Show(pid) + "-" + Show(counter) + Suffix;
    SuffixFits(pid, counter);
    var budget := MaxName - |suffix| - 1;
    "." + (if |stem| > budget then stem[..budget] else stem) + suffix
  }

  lemma SuffixFits(pid: nat, counter: nat)
    requires pid <= MaxPid && counter <= MaxCounter
    ensures |"-" + Show(pid) + "-" + Show(counter) + Suffix| <= 41
  {
    Powers();
    ShowLength(pid, 10);
    ShowLength(counter, 20);
  }

  lemma Powers()
    ensures Pow10(10) == 10_000_000_000 && Pow10(20) == 100_000_000_000_000_000_000
  {
    assert Pow10(5) == 100_000;
    assert Pow10(10) == 10_000_000_000;
    assert Pow10(15) == 1_000_000_000_000_000;
  }

  predicate IsSyncTempName(name: string) {
    |name| > |Suffix| && name[0] == '.' && name[|name| - |Suffix|..] == Suffix
  }

  /** The last position of a dash before `limit`, or -1. */
  function LastDash(s: string, limit: nat): (r: int)
    requires limit <= |s|
    ensures -1 <= r < limit
    ensures r >= 0 ==> s[r] == '-'
    ensures forall i | r < i < limit :: s[i] != '-'
  {
    if limit == 0 then -1 else if s[limit - 1] == '-' then limit - 1 else LastDash(s, limit - 1)
  }

  /** The pid in the name of a temporary, if it is one. */
  function ParsePid(name: string): Option<nat> {
    if !IsSyncTempName(name) then None
    else
      var body := name[..|name| - |Suffix|];
      if |body| < 2 || body[0] != '.' then None
      else
        var counterDash := LastDash(body, |body|);
        if counterDash < 0 || counterDash + 1 == |body| then None
        else
          // with the dash at the front the search starts over, and finds it again
          var pidDash := LastDash(body, if counterDash == 0 then |body| else counterDash);
          if pidDash <= 1 || pidDash + 1 == counterDash then None
          else
            var pidPart, counterPart := body[pidDash + 1..counterDash], body[counterDash + 1..];
            if !AllDigits(pidPart) || !AllDigits(counterPart) then None
            else if Value(pidPart) == 0 || Value(pidPart) > MaxPid then None
            else Some(Value(pidPart))
  }

  /** `name` is a temporary's: a dot, a stem, a pid and a counter in digits, and the marker. */
  predicate Spells(name: string, stem: string, pid: string, counter: string) {
    && name == "." + stem + "-" + pid + "-" + counter + Suffix
    && stem != "" && pid != "" && counter != "" && AllDigits(pid) && AllDigits(counter)
  }

  lemma DashIsLast(s: string, limit: nat, at: nat)
    requires at < limit <= |s| && s[at] == '-' && forall i | at < i < limit :: s[i] != '-'
    ensures LastDash(s, limit) == at
  {}

  lemma NameHasBody(body: string)
    requires |body| > 0 && body[0] == '.'
    ensures IsSyncTempName(body + Suffix) && (body + Suffix)[..|body + Suffix| - |Suffix|] == body
  {
    var name := body + Suffix;
    assert name[0] == '.' && name[|name| - |Suffix|..] == Suffix;
  }

  lemma BodyIsParsed(body: string, p: nat, q: nat)
    requires 1 < p < q < |body| && body[0] == '.' && LastDash(body, |body|) == q && LastDash(body, q) == p
    requires p + 1 < q && q + 1 < |body| && AllDigits(body[p + 1..q]) && AllDigits(body[q + 1..])
    ensures var v := Value(body[p + 1..q]);
            ParsePid(body + Suffix) == if 0 < v <= MaxPid then Some(v) else None
  {
    NameHasBody(body);
  }

  /** Every spelling is read back, whatever dashes and digits the stem holds. */
  lemma SpelledIsParsed(name: string, stem: string, pid: string, counter: string)
    requires Spells(name, stem, pid, counter)
    ensures IsSyncTempName(name)
    ensures ParsePid(name) == if 0 < Value(pid) <= MaxPid then Some(Value(pid)) else None
  {
    var body := "." + stem + "-" + pid + "-" + counter;
    NameHasBody(body);
    BodyParts(stem, pid, counter);
    BodyIsParsed(body, 1 + |stem|, 1 + |stem| + 1 + |pid|);
  }

  /** Where the dashes of a body are, and what lies between and behind them. */
  lemma BodyParts(stem: string, pid: string, counter: string)
    requires AllDigits(pid) && AllDigits(counter)
    ensures var body := "." + stem + "-" + pid + "-" + counter;
            var p := 1 + |stem|;
            var q := p + 1 + |pid|;
            && body[0] == '.' && LastDash(body, |body|) == q && LastDash(body, q) == p
            && body[p + 1..q] == pid && body[q + 1..] == counter
  {
    var head := "." + stem + "-" + pid;
    DashBefore("." + stem, pid);
    DashBefore(head, counter);
    var body := head + "-" + counter;
    assert body[..|head|] == head;
    LastDashWithin(body, head, |head|);
  }

  /** Behind a dash, digits hide nothing. */
  lemma DashBefore(front: string, digits: string)
    requires AllDigits(digits)
    ensures var s := front + "-" + digits; LastDash(s, |s|) == |front| && s[|front| + 1..] == digits
  {
    var s := front + "-" + digits;
    assert forall i | |front| < i < |s| :: s[i] == digits[i - |front| - 1];
    DashIsLast(s, |s|, |front|);
  }

  lemma {:induction false} LastDashWithin(s: string, front: string, limit: nat)
    requires front <= s && limit <= |front|
    ensures LastDash(s, limit) == LastDash(front, limit)
  {
    if limit > 0 && s[limit - 1] != '-' { LastDashWithin(s, front, limit - 1); }
  }

  /** And nothing else is: what the parser accepts is spelled like that. */
  lemma ParsedIsSpelled(name: string)
    ensures ParsePid(name).Some? ==> exists stem, pid, counter ::
              Spells(name, stem, pid, counter) && ParsePid(name) == Some(Value(pid)) && 0 < Value(pid) <= MaxPid
  {
    if ParsePid(name).Some? {
      var body := name[..|name| - |Suffix|];
      var q := LastDash(body, |body|);
      var p := LastDash(body, q);
      var stem, pid, counter := body[1..p], body[p + 1..q], body[q + 1..];
      assert body == "." + stem + "-" + pid + "-" + counter;
      assert name == body + Suffix;
      assert Spells(name, stem, pid, counter);
    }
  }

  /** What a name is made of: as much of the stem as fits, all of it if it does, and both numbers. */
  lemma TempNameParts(stem: string, pid: nat, counter: nat)
    requires pid <= MaxPid && counter <= MaxCounter
    ensures var rest := "-" + Show(pid) + "-" + Show(counter) + ".mito-tmp";
            exists cut :: cut <= stem && (cut == stem || 1 + |cut| + |rest| == 255)
                          && MakeTempName(stem, pid, counter) == "." + cut + rest
  {
    SuffixFits(pid, counter);
    var budget := MaxName - |"-" + Show(pid) + "-" + Show(counter) + Suffix| - 1;
    var cut := if |stem| > budget then stem[..budget] else stem;
    assert MakeTempName(stem, pid, counter) == "." + cut + ("-" + Show(pid) + "-" + Show(counter) + Suffix);
  }

  lemma SuffixCancels(x: string, y: string, suffix: string)
    requires x + suffix == y + suffix
    ensures x == y
  {
    assert |x| == |y| && (x + suffix)[..|x|] == x && (y + suffix)[..|x|] == y;
  }

  lemma BodiesApart(stem: string, pid: string, counter: string, stem': string, pid': string, counter': string)
    requires AllDigits(pid) && AllDigits(counter) && AllDigits(pid') && AllDigits(counter')
    requires "." + stem + "-" + pid + "-" + counter == "." + stem' + "-" + pid' + "-" + counter'
    ensures pid == pid' && counter == counter'
  {
    BodyParts(stem, pid, counter);
    BodyParts(stem', pid', counter');
  }

  lemma Grouped(stem: string, pid: string, counter: string)
    ensures "." + stem + ("-" + pid + "-" + counter + Suffix) == "." + stem + "-" + pid + "-" + counter + Suffix
  {}

  /** Two names are the same only if both numbers are: one process never makes a name twice, and two processes never
      make the same one. */
  lemma NamesApart(stem: string, pid: nat, counter: nat, stem': string, pid': nat, counter': nat)
    requires pid <= MaxPid && counter <= MaxCounter && pid' <= MaxPid && counter' <= MaxCounter
    requires MakeTempName(stem, pid, counter) == MakeTempName(stem', pid', counter')
    ensures pid == pid' && counter == counter'
  {
    var cut := CutStem(stem, pid, counter);
    var cut' := CutStem(stem', pid', counter');
    ShowThenValue(pid);
    ShowThenValue(counter);
    ShowThenValue(pid');
    ShowThenValue(counter');
    SuffixCancels("." + cut + "-" + Show(pid) + "-" + Show(counter),
                  "." + cut' + "-" + Show(pid') + "-" + Show(counter'), Suffix);
    BodiesApart(cut, Show(pid), Show(counter), cut', Show(pid'), Show(counter'));
  }

  lemma CutStem(stem: string, pid: nat, counter: nat) returns (cut: string)
    requires pid <= MaxPid && counter <= MaxCounter
    ensures MakeTempName(stem, pid, counter) == "." + cut + "-" + Show(pid) + "-" + Show(counter) + Suffix
  {
    TempNameParts(stem, pid, counter);
    var rest := "-" + Show(pid) + "-" + Show(counter) + Suffix;
    cut :| cut <= stem && MakeTempName(stem, pid, counter) == "." + cut + rest;
    Grouped(cut, Show(pid), Show(counter));
  }

  /** Printing and parsing undo each other, within the longest name a file system takes. */
  lemma TempNameRoundTrip(stem: string, pid: nat, counter: nat)
    requires stem != "" && 0 < pid <= MaxPid && counter <= MaxCounter
    ensures |MakeTempName(stem, pid, counter)| <= MaxName
    ensures IsSyncTempName(MakeTempName(stem, pid, counter))
    ensures ParsePid(MakeTempName(stem, pid, counter)) == Some(pid)
  {
    SuffixFits(pid, counter);
    ShowThenValue(pid);
    ShowThenValue(counter);
    var name := MakeTempName(stem, pid, counter);
    var budget := MaxName - |"-" + Show(pid) + "-" + Show(counter) + Suffix| - 1;
    var cut := if |stem| > budget then stem[..budget] else stem;
    assert name == "." + cut + "-" + Show(pid) + "-" + Show(counter) + Suffix;
    SpelledIsParsed(name, cut, Show(pid), Show(counter));
  }
}
