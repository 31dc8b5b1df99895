/** Ranged reads of an object through endpoints that honour, clamp, cut or ignore the range
    (Content-Range, section 14.4 of RFC 9110). */
module RangedRead {
  import opened Chunks
  import opened Decimal

  // ---- The request ----

  predicate IsInt64(n: int) {
    -MaxInt64 - 1 <= n <= MaxInt64
  }

  /** The length of a usable range; every intermediate value fits 64 bits. */
  method ValidateRange(start: int, end: int) returns (ok: bool, length: int)
    requires IsInt64(start) && IsInt64(end)
    ensures ok <==> 0 <= start <= end && end - start + 1 <= MaxInt64
    ensures ok ==> length == end - start + 1 && IsInt64(length)
  {
    length := 0;
    if start < 0 { return false, 0; }
    if end < start { return false, 0; }
    var span := end - start;
    assert IsInt64(span);
    if span == MaxInt64 { return false, 0; }
    return true, span + 1;
  }

  // ---- The header ----

  predicate IsSpace(c: char) {
    c == ' ' || '\t' <= c <= '\r'
  }

  function ToLower(c: char): char {
    if 'A' <= c <= 'Z' then (c as int + 32) as char else c
  }

  const Unit: string := "bytes"

  /** The first position at or after `pos` that is no white space. */
  function AfterSpace(s: string, pos: nat): (r: nat)
    requires pos <= |s|
    ensures pos <= r <= |s| && (r < |s| ==> !IsSpace(s[r]))
    ensures forall i | pos <= i < r :: IsSpace(s[i])
    decreases |s| - pos
  {
    if pos < |s| && IsSpace(s[pos]) then AfterSpace(s, pos + 1) else pos
  }

  function AfterDigits(s: string, pos: nat): (r: nat)
    requires pos <= |s|
    ensures pos <= r <= |s| && (r < |s| ==> !IsDigit(s[r]))
    ensures AllDigits(s[pos..r])
    decreases |s| - pos
  {
    if pos < |s| && IsDigit(s[pos]) then
      var r := AfterDigits(s, pos + 1);
      assert s[pos..r] == [s[pos]] + s[pos + 1..r];
      r
    else pos
  }

  datatype Scanned = NoNumber | Number(value: int, next: nat)

  /** A stream extraction of a 64-bit number: white space, an optional sign, digits, no overflow. */
  function ScanNumber(s: string, pos: nat): (r: Scanned)
    requires pos <= |s|
    ensures r.Number? ==> pos < r.next <= |s| && IsInt64(r.value)
  {
    var p := AfterSpace(s, pos);
    var signed := p < |s| && (s[p] == '-' || s[p] == '+');
    var from := if signed then p + 1 else p;
    var to := AfterDigits(s, from);
    if from == to then NoNumber
    else
      var magnitude: int := Value(s[from..to]);
      var value := if signed && s[p] == '-' then -magnitude else magnitude;
      if IsInt64(value) then Number(value, to) else NoNumber
  }

  /** What a response says about its bytes. */
  datatype Claim = Silent | Unreadable | Range(first: int, last: int)

  /** The part of the header after the unit: "<first>-<last>", the length behind it unread. */
  function ReadRange(s: string, pos: nat): Claim
    requires pos <= |s|
  {
    var first := ScanNumber(s, pos);
    if first.NoNumber? then Unreadable
    else
      var dash := AfterSpace(s, first.next);
      if dash >= |s| || s[dash] != '-' then Unreadable
      else
        var last := ScanNumber(s, dash + 1);
        if last.NoNumber? then Unreadable else Range(first.value, last.value)
  }

  predicate UnitAt(s: string, pos: nat) {
    pos + |Unit| <= |s| && forall i | 0 <= i < |Unit| :: ToLower(s[pos + i]) == Unit[i]
  }

  /** The unit has to stand there as a whole word, in any case. */
  function ReadHeader(s: string): Claim {
    if s == "" then Silent
    else
      var pos := AfterSpace(s, 0);
      if !UnitAt(s, pos) then Unreadable
      else if pos + |Unit| >= |s| || !IsSpace(s[pos + |Unit|]) then Unreadable
      else ReadRange(s, AfterSpace(s, pos + |Unit|))
  }

  /** The check as the client makes it, with its loops over white space. */
  method RangeResponseHonoursRequest(header: string, start: int, end: int, allowUnverified: bool) returns (ok: bool)
    ensures ok <==>
      ReadHeader(header) == Range(start, end) || (ReadHeader(header) == Silent && (start == 0 || allowUnverified))
  {
    if header == "" { return start == 0 || allowUnverified; }
    var pos: nat := 0;
    while pos < |header| && IsSpace(header[pos])
      invariant pos <= |header| && AfterSpace(header, 0) == AfterSpace(header, pos)
    {
      pos := pos + 1;
    }
    if !(|header| - pos >= |Unit| && UnitAt(header, pos)) { return false; }
    pos := pos + |Unit|;
    if pos >= |header| || !IsSpace(header[pos]) { return false; }
    while pos < |header| && IsSpace(header[pos])
      invariant pos <= |header| && AfterSpace(header, AfterSpace(header, 0) + |Unit|) == AfterSpace(header, pos)
    {
      pos := pos + 1;
    }
    match ReadRange(header, pos) {
      case Range(first, last) => return first == start && last == end;
      case _ => return false;
    }
  }

  /** A header as the standard writes it; the unit in any mixture of cases. */
  predicate IsBytesUnit(unit: string) {
    |unit| == |Unit| && forall i | 0 <= i < |unit| :: ToLower(unit[i]) == Unit[i]
  }

  function Render(unit: string, first: nat, last: nat, rest: string): string {
    unit + " " + (Show(first) + "-" + Show(last) + "/") + rest
  }

  lemma {:induction false} DigitsEnd(s: string, pos: nat, digits: string)
    requires AllDigits(digits) && pos + |digits| <= |s| && s[pos..pos + |digits|] == digits
    requires pos + |digits| < |s| ==> !IsDigit(s[pos + |digits|])
    ensures AfterDigits(s, pos) == pos + |digits|
    decreases |digits|
  {
    if digits != "" {
      assert s[pos] == digits[0];
      assert s[pos + 1..pos + |digits|] == digits[1..];
      DigitsEnd(s, pos + 1, digits[1..]);
    }
  }

  lemma ScanShown(s: string, pos: nat, n: nat)
    requires n <= MaxInt64 && pos + |Show(n)| <= |s| && s[pos..pos + |Show(n)|] == Show(n)
    requires pos + |Show(n)| < |s| ==> !IsDigit(s[pos + |Show(n)|])
    ensures ScanNumber(s, pos) == Number(n, pos + |Show(n)|)
  {
    ShowThenValue(n);
    assert s[pos] == Show(n)[0];
    DigitsEnd(s, pos, Show(n));
  }

  /** A part of a text that stands at `pos` stands where it should. */
  lemma PartAt(s: string, pos: nat, text: string, i: nat, j: nat)
    requires pos + |text| <= |s| && s[pos..pos + |text|] == text && i <= j <= |text|
    ensures s[pos + i..pos + j] == text[i..j]
    ensures j < |text| ==> s[pos + j] == text[j]
  {
    var part := s[pos..pos + |text|];
    forall k | 0 <= k < j - i ensures s[pos + i..pos + j][k] == text[i..j][k] {
      assert part[i + k] == s[pos + (i + k)];
    }
    if j < |text| { assert part[j] == s[pos + j]; }
  }

  lemma TwoNumbers(s: string, pos: nat, first: int, dash: nat, last: int, end: nat)
    requires pos <= dash < |s| && ScanNumber(s, pos) == Number(first, dash) && s[dash] == '-'
    requires ScanNumber(s, dash + 1) == Number(last, end)
    ensures ReadRange(s, pos) == Range(first, last)
  {
    assert AfterSpace(s, dash) == dash;
  }

  lemma RangeShownAt(s: string, pos: nat, first: nat, last: nat, dash: nat, end: nat)
    requires first <= MaxInt64 && last <= MaxInt64 && pos <= dash < end < |s|
    requires s[pos..dash] == Show(first) && s[dash] == '-' && s[dash + 1..end] == Show(last) && s[end] == '/'
    ensures ReadRange(s, pos) == Range(first, last)
  {
    ScanAt(s, pos, dash, first);
    ScanAt(s, dash + 1, end, last);
    TwoNumbers(s, pos, first, dash, last, end);
  }

  lemma RangeShown(s: string, pos: nat, first: nat, last: nat)
    requires first <= MaxInt64 && last <= MaxInt64
    requires var text := Show(first) + "-" + Show(last) + "/"; pos + |text| <= |s| && s[pos..pos + |text|] == text
    ensures ReadRange(s, pos) == Range(first, last)
  {
    RangeParts(s, pos, Show(first), Show(last));
    RangeShownAt(s, pos, first, last, pos + |Show(first)|, pos + |Show(first)| + 1 + |Show(last)|);
  }

  lemma RangeParts(s: string, pos: nat, x: string, y: string)
    requires var text := x + "-" + y + "/"; pos + |text| <= |s| && s[pos..pos + |text|] == text
    ensures var dash := pos + |x|; var end := dash + 1 + |y|;
            end < |s| && s[pos..dash] == x && s[dash] == '-' && s[dash + 1..end] == y && s[end] == '/'
  {
    var text := x + "-" + y + "/";
    PartAt(s, pos, text, 0, |x|);
    assert text[0..|x|] == x && text[|x|] == '-';
    PartAt(s, pos, text, |x| + 1, |x| + 1 + |y|);
    assert text[|x| + 1..|x| + 1 + |y|] == y && text[|x| + 1 + |y|] == '/';
  }

  lemma ScanAt(s: string, pos: nat, end: nat, n: nat)
    requires n <= MaxInt64 && pos <= end <= |s| && s[pos..end] == Show(n) && (end < |s| ==> !IsDigit(s[end]))
    ensures ScanNumber(s, pos) == Number(n, end)
  {
    ScanShown(s, pos, n);
  }

  /** Every standard header is read, whatever the case of its unit and whatever stands for the length. */
  lemma RenderedIsRead(unit: string, first: nat, last: nat, rest: string)
    requires IsBytesUnit(unit) && first <= MaxInt64 && last <= MaxInt64
    ensures ReadHeader(Render(unit, first, last, rest)) == Range(first, last)
  {
    var text := Show(first) + "-" + Show(last) + "/";
    ShowThenValue(first);
    HeaderParts(unit, text, rest);
    RangeShown(Render(unit, first, last, rest), 6, first, last);
    UnitThenSpace(Render(unit, first, last, rest), unit);
  }

  lemma HeaderParts(unit: string, text: string, rest: string)
    requires |unit| == 5 && text != ""
    ensures var s := unit + " " + text + rest;
            |s| > 6 && s[..5] == unit && s[5] == ' ' && s[6] == text[0] && 6 + |text| <= |s| && s[6..6 + |text|] == text
  {}

  lemma UnitThenSpace(s: string, unit: string)
    requires IsBytesUnit(unit) && |s| > 6 && s[..5] == unit && s[5] == ' ' && IsDigit(s[6])
    ensures ReadHeader(s) == ReadRange(s, 6)
  {
    assert forall i | 0 <= i < |Unit| :: s[i] == unit[i];
    assert ToLower(s[0]) == Unit[0];
    assert AfterSpace(s, 0) == 0;
    assert AfterSpace(s, 6) == 6;
  }

  /** Only a missing header is silence. */
  lemma SilentIff(header: string)
    ensures ReadHeader(header) == Silent <==> header == ""
  {}

  /** Only the word itself counts as the unit: anything before it or grown onto it is unreadable. */
  lemma OtherUnitsAreUnreadable(word: string, tail: string)
    requires word != "" && (forall i | 0 <= i < |word| :: !IsSpace(word[i])) && !IsBytesUnit(word)
    ensures ReadHeader(word + " " + tail) == Unreadable
  {
    var s := word + " " + tail;
    assert s[|word|] == ' ' && forall i | 0 <= i < |word| :: s[i] == word[i];
    assert AfterSpace(s, 0) == 0;
    if |word| < |Unit| {
      assert ToLower(s[0 + |word|]) != Unit[|word|];
    } else if |word| == |Unit| {
      var i :| 0 <= i < |word| && ToLower(word[i]) != Unit[i];
      assert ToLower(s[0 + i]) != Unit[i];
    } else {
      assert !IsSpace(s[|Unit|]);
    }
  }

  // ---- The endpoint ----

  datatype Reply = Failed(retryable: bool) | Success(header: string, body: seq<Byte>)

  /** What an endpoint may answer about the bytes of `object`. A range it names is the one it sends
      from, possibly cut short or running on; without a header it either ignored the range and sends the object, or
      honoured it; a header nobody can read says nothing. */
  ghost predicate Truthful(whole: seq<Byte>, start: nat, reply: Reply) {
    reply.Success? ==>
      match ReadHeader(reply.header)
      case Silent => reply.body <= whole || (start <= |whole| && reply.body <= whole[start..])
      case Range(first, last) => 0 <= first <= last < |whole| && reply.body <= whole[first..]
      case Unreadable => true
  }

  /** An endpoint that does what it is asked. */
  ghost predicate Honours(whole: seq<Byte>, start: nat, end: nat, reply: Reply) {
    && reply.Success? && start <= end < |whole| && reply.body == whole[start..end + 1]
    && (ReadHeader(reply.header) == Range(start, end) || (start == 0 && ReadHeader(reply.header) == Silent))
  }

  /** What the client makes of one reply. */
  datatype Judgement = Accepted | Refused | TooShort | TooLong

  function Judge(reply: Reply, start: int, end: int, allowUnverified: bool): Judgement
    requires reply.Success?
  {
    var claim := ReadHeader(reply.header);
    if !(claim == Range(start, end) || (claim == Silent && (start == 0 || allowUnverified))) then Refused
    else if |reply.body| > end - start + 1 then TooLong
    else if |reply.body| < end - start + 1 then TooShort
    else Accepted
  }

  /** The range itself. */
  ghost predicate IsRange(whole: seq<Byte>, start: nat, end: nat, body: seq<Byte>)
    requires start <= end
  {
    end < |whole| && body == whole[start..end + 1]
  }

  /** What is accepted is the range asked for, with the flag off or from the start of the object. Without a
      header this rests on the start being 0: too long and too short are refused, and what is left of
      any prefix of the object is the range. */
  lemma AcceptedIsExact(whole: seq<Byte>, start: nat, end: nat, reply: Reply, allowUnverified: bool)
    requires start <= end && reply.Success? && Truthful(whole, start, reply)
    requires Judge(reply, start, end, allowUnverified) == Accepted && (!allowUnverified || start == 0)
    ensures IsRange(whole, start, end, reply.body)
  {}

  /** And what an endpoint that honours the range sends is accepted. */
  lemma HonouredIsAccepted(whole: seq<Byte>, start: nat, end: nat, reply: Reply, allowUnverified: bool)
    requires Honours(whole, start, end, reply)
    ensures Truthful(whole, start, reply) && Judge(reply, start, end, allowUnverified) == Accepted
  {}

  /** With the flag on, every truthful reply that is accepted is the range. */
  ghost predicate UnverifiedIsExact(whole: seq<Byte>, start: nat, end: nat)
    requires start <= end
  {
    forall reply: Reply | reply.Success? && Truthful(whole, start, reply)
        && Judge(reply, start, end, true) == Accepted ::
      IsRange(whole, start, end, reply.body)
  }

  /** The object, cut off after as many bytes as the range has: what an endpoint that ignores the range can
      send when its transfer breaks at that point. */
  function CutOff(whole: seq<Byte>, start: nat, end: nat): Reply
    requires start <= end < |whole|
  {
    Success("", whole[..end - start + 1])
  }

  lemma CutOffIsAccepted(whole: seq<Byte>, start: nat, end: nat)
    requires start <= end < |whole|
    ensures Truthful(whole, start, CutOff(whole, start, end))
    ensures Judge(CutOff(whole, start, end), start, end, true) == Accepted
  {}

  /** The exact condition for a range inside the object: the flag is harmless if and only if the object
      begins with the bytes of the range. Otherwise the cut-off object is taken for it. */
  lemma UnverifiedIsExactIff(whole: seq<Byte>, start: nat, end: nat)
    requires start <= end < |whole|
    ensures UnverifiedIsExact(whole, start, end) <==> whole[..end - start + 1] == whole[start..end + 1]
  {
    if whole[..end - start + 1] == whole[start..end + 1] {
      forall reply: Reply | reply.Success? && Truthful(whole, start, reply)
          && Judge(reply, start, end, true) == Accepted
        ensures IsRange(whole, start, end, reply.body)
      {
        AcceptedBody(whole, start, end, reply);
      }
    } else {
      CutOffIsAccepted(whole, start, end);
      CutOffIsNotRange(whole, start, end, CutOff(whole, start, end));
    }
  }

  lemma CutOffIsNotRange(whole: seq<Byte>, start: nat, end: nat, reply: Reply)
    requires start <= end < |whole| && whole[..end - start + 1] != whole[start..end + 1]
    requires reply.Success? && Truthful(whole, start, reply) && Judge(reply, start, end, true) == Accepted
    requires reply.body == whole[..end - start + 1]
    ensures !UnverifiedIsExact(whole, start, end)
  {
    assert !IsRange(whole, start, end, reply.body);
  }

  /** An accepted body is the range, or as many bytes from the front. */
  lemma AcceptedBody(whole: seq<Byte>, start: nat, end: nat, reply: Reply)
    requires start <= end < |whole| && reply.Success? && Truthful(whole, start, reply)
    requires Judge(reply, start, end, true) == Accepted
    ensures reply.body == whole[..end - start + 1] || reply.body == whole[start..end + 1]
  {}

  /** What a caller can check beforehand: for every object that has the range, the flag is harmless exactly
      from the start of the object. */
  lemma FlagIsHarmlessIff(start: nat, end: nat)
    requires start <= end
    ensures (forall whole: seq<Byte> | end < |whole| :: UnverifiedIsExact(whole, start, end)) <==> start == 0
  {
    if start == 0 {
      forall whole: seq<Byte> | end < |whole| ensures UnverifiedIsExact(whole, start, end) {
        UnverifiedIsExactIff(whole, start, end);
      }
    } else {
      var whole: seq<Byte> := seq(end + 1, i => if i == 0 then 1 else 0);
      UnverifiedIsExactIff(whole, start, end);
      assert whole[..end - start + 1][0] == 1 && whole[start..end + 1][0] == 0;
    }
  }

  /** For a range that begins inside the object and ends behind it no answer is right, and the flag accepts
      one if the object is as long as the range. */
  lemma UnverifiedMisleads(whole: seq<Byte>, start: nat)
    requires start > 0 && whole != []
    ensures var end := start + |whole| - 1; var reply := Success("", whole);
            && Truthful(whole, start, reply) && Judge(reply, start, end, true) == Accepted
            && Judge(reply, start, end, false) == Refused && end >= |whole|
  {}

  // ---- The reads ----

  /** The endpoint over the attempts of one call. A `sound` one always honours the range. */
  method GetObject(whole: seq<Byte>, sound: bool, start: nat, end: nat) returns (reply: Reply)
    requires start <= end <= MaxInt64
    ensures Truthful(whole, start, reply)
    ensures sound && end < |whole| ==> Honours(whole, start, end, reply)
  {
    var header: string, from: nat, length: nat, fail: bool, retryable: bool := *, *, *, *, *;
    if sound && end < |whole| {
      RenderedIsRead("bytes", start, end, "*");
      HonouredIsAccepted(whole, start, end, Success(Render("bytes", start, end, "*"), whole[start..end + 1]), false);
      return Success(Render("bytes", start, end, "*"), whole[start..end + 1]);
    }
    var claim := ReadHeader(header);
    var at := match claim case Range(first, _) => first case _ => if from == 0 then 0 else start;
    if fail || at < 0 || at > |whole| || (claim.Range? && !(claim.first <= claim.last < |whole|)) {
      return Failed(retryable);
    }
    SentFromIsTruthful(whole, start, header, at, Min(length, |whole| - at));
    reply := Success(header, whole[at..][..Min(length, |whole| - at)]);
  }

  lemma SentFromIsTruthful(whole: seq<Byte>, start: nat, header: string, at: nat, length: nat)
    requires at <= |whole| && length <= |whole| - at
    requires var claim := ReadHeader(header);
             && (claim.Range? ==> claim.first == at && claim.first <= claim.last < |whole|)
             && (claim.Silent? ==> at == 0 || at == start)
    ensures Truthful(whole, start, Success(header, whole[at..][..length]))
  {}

  lemma WhatIsAccepted(whole: seq<Byte>, start: nat, end: nat, reply: Reply, allowUnverified: bool)
    requires start <= end && reply.Success? && Truthful(whole, start, reply)
    requires Judge(reply, start, end, allowUnverified) == Accepted
    ensures !allowUnverified || start == 0 ==> IsRange(whole, start, end, reply.body)
    ensures end < |whole| && whole[..end - start + 1] == whole[start..end + 1] ==>
      IsRange(whole, start, end, reply.body)
  {
    if !allowUnverified || start == 0 {
      AcceptedIsExact(whole, start, end, reply, allowUnverified);
    } else if end < |whole| {
      UnverifiedIsExactIff(whole, start, end);
    }
  }

  /** A range as a fresh byte string, or nothing. */
  method GetObjectRange(whole: seq<Byte>, sound: bool, start: int, end: int, maxRetries: int, allowUnverified: bool)
      returns (data: seq<Byte>)
    requires IsInt64(start) && IsInt64(end)
    ensures data != [] ==> 0 <= start <= end && |data| == end - start + 1
    ensures data != [] && (!allowUnverified || start == 0) ==> IsRange(whole, start, end, data)
    ensures data != [] && end < |whole| && whole[..end - start + 1] == whole[start..end + 1] ==>
      IsRange(whole, start, end, data)
    ensures sound && 0 <= start <= end < |whole| && end - start < MaxInt64 && maxRetries >= 0 ==> data != []
  {
    var ok, expected := ValidateRange(start, end);
    if !ok { return []; }
    var attempt := 0;
    while attempt <= maxRetries
      invariant 0 <= attempt && (sound && end < |whole| ==> attempt == 0)
      decreases maxRetries - attempt
    {
      var reply := GetObject(whole, sound, start, end);
      if sound && end < |whole| { HonouredIsAccepted(whole, start, end, reply, allowUnverified); }
      match reply {
        case Success(header, body) =>
          var honoured := RangeResponseHonoursRequest(header, start, end, allowUnverified);
          if !honoured { return []; }
          if |body| > expected { return []; }
          if |body| != expected {
            if attempt >= 1 || attempt >= maxRetries { return []; }
          } else {
            WhatIsAccepted(whole, start, end, reply, allowUnverified);
            return body;
          }
        case Failed(retryable) =>
          if !(attempt < maxRetries && retryable) { return []; }
      }
      attempt := attempt + 1;
    }
    return [];
  }

  class ByteBuffer {
    var data: seq<Byte>

    constructor ()
      ensures data == []
    { data := []; }
  }

  /** The same range into a buffer the caller owns. Here the body is read as far as the range goes, and
      one look further tells whether it runs on. A failure leaves the buffer empty. */
  method GetObjectRangeInto(whole: seq<Byte>, sound: bool, start: int, end: int, maxRetries: int, allowUnverified: bool,
                            buffer: ByteBuffer)
    returns (ok: bool)
    requires IsInt64(start) && IsInt64(end)
    modifies buffer
    ensures ok ==> 0 <= start <= end && |buffer.data| == end - start + 1
    ensures ok && (!allowUnverified || start == 0) ==> IsRange(whole, start, end, buffer.data)
    ensures ok && end < |whole| && whole[..end - start + 1] == whole[start..end + 1] ==>
      IsRange(whole, start, end, buffer.data)
    ensures !ok ==> buffer.data == []
    ensures sound && 0 <= start <= end < |whole| && end - start < MaxInt64 && maxRetries >= 0 ==> ok
  {
    var valid, expected := ValidateRange(start, end);
    if !valid { buffer.data := []; return false; }
    var attempt := 0;
    while attempt <= maxRetries
      invariant 0 <= attempt && (sound && end < |whole| ==> attempt == 0)
      decreases maxRetries - attempt
    {
      var reply := GetObject(whole, sound, start, end);
      if sound && end < |whole| { HonouredIsAccepted(whole, start, end, reply, allowUnverified); }
      match reply {
        case Success(header, body) =>
          var honoured := RangeResponseHonoursRequest(header, start, end, allowUnverified);
          if !honoured { buffer.data := []; return false; }
          var read := Min(expected, |body|);
          buffer.data := body[..read];
          if read == expected && |body| > read { buffer.data := []; return false; }
          if read != expected {
            buffer.data := [];
            if attempt >= 1 || attempt >= maxRetries { return false; }
          } else {
            WhatIsAccepted(whole, start, end, reply, allowUnverified);
            assert body[..read] == body;
            return true;
          }
        case Failed(retryable) =>
          if !(attempt < maxRetries && retryable) { buffer.data := []; return false; }
      }
      attempt := attempt + 1;
    }
    buffer.data := [];
    return false;
  }
}
