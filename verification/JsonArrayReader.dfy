/**
 The streaming reader of a top-level JSON array of objects, `iter_json_array_records`:
 a buffer that is refilled chunk by chunk, proved equal to a reader of the whole text,
 which in turn is proved to accept exactly the well-formed arrays of objects.
 */
module JsonArrayReader {
  import opened Base
  import opened JsonGrammar

  datatype Error =
    | BadChunkSize | Truncated | NotAnArray | ExpectedSeparator
    | TrailingComma | TrailingContent | InvalidValue | NotAnObject

  /** The records yielded, and the error that ended the iteration, if one did. */
  datatype Outcome = Outcome(records: seq<Value>, error: Option<Error>)

  /** What the reader expects next: the array, a first value or its end, a value, a separator. */
  datatype Phase = Start | First | AfterComma | AfterValue

  // ---------------------------------------------------------------- the whole text at once

  function Failed(e: Error): Outcome { Outcome([], Some(e)) }

  /** After the closing bracket only white space may follow. */
  function Finish(text: string, p: nat): Outcome
    requires p <= |text|
  {
    if Skip(text, p, PythonSpace) == |text| then Outcome([], None) else Failed(TrailingContent)
  }

  predicate IsObject(v: Value) { v.Compound? && v.isObject }

  /** Read on from `p`; `quota` is the number of records still wanted. */
  function Read(text: string, p: nat, phase: Phase, quota: Option<int>): Outcome
    requires p <= |text|
    decreases |text| - p
  {
    var q := Skip(text, p, PythonSpace);
    if q == |text| then Failed(Truncated)
    else match phase
      case Start =>
        if text[q] == '[' then Read(text, q + 1, First, quota) else Failed(NotAnArray)
      case AfterValue =>
        if text[q] == ',' then Read(text, q + 1, AfterComma, quota)
        else if text[q] == ']' then Finish(text, q + 1)
        else Failed(ExpectedSeparator)
      case _ =>
        if text[q] == ']' then
          if phase == AfterComma then Failed(TrailingComma) else Finish(text, q + 1)
        else
          var item := Scan(text, q);
          if item.None? then Failed(InvalidValue)
          else if !IsObject(item.value.0) then Failed(NotAnObject)
          else
            var left := Less(quota);
            var rest := if left == Some(0) then Outcome([], None) else Read(text, item.value.1, AfterValue, left);
            Outcome([item.value.0] + rest.records, rest.error)
  }

  function Less(quota: Option<int>): Option<int> {
    if quota.Some? then Some(quota.value - 1) else None
  }

  function ReadArray(text: string, limit: Option<int>): Outcome {
    if limit.Some? && limit.value <= 0 then Outcome([], None) else Read(text, 0, Start, limit)
  }

  // ---------------------------------------------------------------- the stream

  lemma {:induction false} SkipAhead(text: string, p: nat, t: string, k: Class)
    requires Stands(text, p, t) && AllIn(t, k)
    ensures Skip(text, p, k) == Skip(text, p + |t|, k)
    decreases |t|
  {
    if t != "" {
      StandsAt(text, p, t, 0);
      assert text[p + 1..p + |t|] == t[1..];
      SkipAhead(text, p + 1, t[1..], k);
    }
  }

  /** Move past white space, as far as the buffer goes. */
  method SkipSpaces(buffer: string, position: nat) returns (q: nat)
    requires position <= |buffer|
    ensures q == Skip(buffer, position, PythonSpace)
  {
    q := position;
    while q < |buffer| && Member(buffer[q], PythonSpace)
      invariant position <= q <= |buffer|
      invariant Skip(buffer, q, PythonSpace) == Skip(buffer, position, PythonSpace)
    {
      q := q + 1;
    }
  }

  /** Only white space lies between the two positions. */
  predicate SameAhead(text: string, p: nat, p': nat) {
    p <= |text| && p' <= |text| && Skip(text, p, PythonSpace) == Skip(text, p', PythonSpace)
  }

  /** No white space at `p`. */
  predicate Stops(text: string, p: nat) {
    p < |text| && Skip(text, p, PythonSpace) == p
  }

  /** The buffer holds the text from `base` up to where the file has been read. */
  predicate Holds(text: string, base: nat, buffer: string, eof: bool) {
    base + |buffer| <= |text| && Stands(text, base, buffer) && (eof ==> base + |buffer| == |text|)
  }

  /** Drop the consumed part of the buffer, then append the next chunk of the file. */
  method Refill(text: string, chunkSize: nat, base: nat, buffer: string, position: nat)
    returns (buffer': string, eof: bool)
    requires chunkSize > 0 && position <= |buffer| && Holds(text, base, buffer, false)
    ensures Holds(text, base + position, buffer', eof)
    ensures if eof then base + |buffer| == |text| else base + |buffer| < base + position + |buffer'|
  {
    var offset := base + |buffer|;
    var chunk := text[offset..if offset + chunkSize <= |text| then offset + chunkSize else |text|];
    assert buffer == text[base..offset];
    buffer' := buffer[position..] + chunk;
    eof := chunk == "";
    assert buffer' == text[base + position..offset + |chunk|];
  }

  /** Skipping spaces in the buffer moves the reader over white space of the text. */
  lemma SkipInBuffer(text: string, base: nat, buffer: string, position: nat)
    requires position <= |buffer| && Holds(text, base, buffer, false)
    ensures var q := Skip(buffer, position, PythonSpace);
            && SameAhead(text, base + position, base + q)
            && (q < |buffer| ==> Stops(text, base + q) && text[base + q] == buffer[q])
  {
    var q := Skip(buffer, position, PythonSpace);
    var t := Sub(buffer, position, q);
    StandsWithin(buffer, text, base, position, t);
    SkipAhead(text, base + position, t, PythonSpace);
    if q < |buffer| {
      StandsAt(text, base, buffer, q);
    }
  }

  /** The head of the loop: refill an empty buffer, then skip white space in the buffer. */
  method Settle(text: string, chunkSize: nat, base: nat, buffer: string, position: nat, eof: bool)
    returns (b: nat, s: string, p: nat, e: bool)
    requires chunkSize > 0 && position <= |buffer| && Holds(text, base, buffer, eof)
    ensures p <= |s| && Holds(text, b, s, e)
    ensures SameAhead(text, base + position, b + p)
    ensures p < |s| ==> Stops(text, b + p) && text[b + p] == s[p]
    ensures (b == base && s == buffer && e == eof && position <= p)
         || base + |buffer| < b + |s| || (base + |buffer| == b + |s| && e && !eof)
  {
    hide Stands, Skip;
    b, s, p, e := base, buffer, position, eof;
    if p >= |s| && !e {
      s, e := Refill(text, chunkSize, base, buffer, position);
      b, p := base + position, 0;
    }
    SkipInBuffer(text, b, s, p);
    p := SkipSpaces(s, p);
  }

  /** The loop after the closing bracket: skip white space, refill, until the file ends. */
  method ExpectEnd(text: string, chunkSize: nat, base: nat, buffer: string, position: nat, eof: bool)
    returns (out: Outcome)
    requires chunkSize > 0 && position <= |buffer| && Holds(text, base, buffer, eof)
    ensures out == Finish(text, base + position)
  {
    hide Stands, Skip;
    var b: nat, s, p: nat, ended := base, buffer, position, eof;
    while true
      invariant p <= |s| && Holds(text, b, s, ended)
      invariant SameAhead(text, base + position, b + p)
      decreases |text| - b - |s|, !ended
    {
      SkipInBuffer(text, b, s, p);
      p := SkipSpaces(s, p);
      if p < |s| {
        return Failed(TrailingContent);
      }
      if ended {
        StopsAtEnd(text);
        return Outcome([], None);
      }
      var s', e := Refill(text, chunkSize, b, s, p);
      b, s, p, ended := b + p, s', 0, e;
    }
  }

  lemma StopsAtEnd(text: string)
    ensures Skip(text, |text|, PythonSpace) == |text|
  {
  }

  /** The three flags of the loop say which phase it is in. */
  function PhaseOf(started: bool, expectValue: bool, afterComma: bool): Phase {
    if !started then Start else if !expectValue then AfterValue else if afterComma then AfterComma else First
  }

  /** The outcome of going on from `p` with `records` already yielded. */
  function Continue(records: seq<Value>, text: string, p: nat, phase: Phase, quota: Option<int>): Outcome
    requires p <= |text|
  {
    var rest := Read(text, p, phase, quota);
    Outcome(records + rest.records, rest.error)
  }

  function Left(limit: Option<int>, yielded: nat): Option<int> {
    if limit.Some? then Some(limit.value - yielded) else None
  }

  lemma ContinueFrom(text: string, p: nat, phase: Phase, quota: Option<int>)
    requires p <= |text|
    ensures Continue([], text, p, phase, quota) == Read(text, p, phase, quota)
  {
  }

  /** White space does not matter. */
  lemma ContinueSkips(records: seq<Value>, text: string, p: nat, p': nat, phase: Phase, quota: Option<int>)
    requires SameAhead(text, p, p')
    ensures Continue(records, text, p, phase, quota) == Continue(records, text, p', phase, quota)
  {
    hide Skip, Scan, Finish;
    assert Read(text, p, phase, quota) == Read(text, p', phase, quota);
  }

  lemma ContinueTruncated(records: seq<Value>, text: string, phase: Phase, quota: Option<int>)
    ensures Continue(records, text, |text|, phase, quota) == Outcome(records, Some(Truncated))
  {
  }

  /** What the whole-text reader does at a character that is no white space. */
  lemma ContinueAt(records: seq<Value>, text: string, p: nat, phase: Phase, quota: Option<int>)
    requires Stops(text, p)
    ensures phase == Start ==>
      Continue(records, text, p, phase, quota)
      == if text[p] == '[' then Continue(records, text, p + 1, First, quota) else Outcome(records, Some(NotAnArray))
    ensures phase == AfterValue ==>
      Continue(records, text, p, phase, quota)
      == if text[p] == ',' then Continue(records, text, p + 1, AfterComma, quota)
         else Outcome(records, if text[p] == ']' then Finish(text, p + 1).error else Some(ExpectedSeparator))
    ensures phase == First && text[p] == ']' ==>
      Continue(records, text, p, phase, quota) == Outcome(records, Finish(text, p + 1).error)
    ensures phase == AfterComma && text[p] == ']' ==>
      Continue(records, text, p, phase, quota) == Outcome(records, Some(TrailingComma))
  {
    hide Skip, Scan;
    assert records + [] == records;
  }

  lemma ReadValue(text: string, p: nat, phase: Phase, quota: Option<int>)
    requires Stops(text, p)
    requires (phase == First || phase == AfterComma) && text[p] != ']'
    ensures Read(text, p, phase, quota)
      == var item := Scan(text, p);
         if item.None? then Failed(InvalidValue)
         else if !IsObject(item.value.0) then Failed(NotAnObject)
         else
           var rest := if Less(quota) == Some(0) then Outcome([], None) else Read(text, item.value.1, AfterValue,
               Less(quota));
           Outcome([item.value.0] + rest.records, rest.error)
  {
    hide Skip, Scan, Finish, IsObject, Less;
  }

  lemma ContinueValue(records: seq<Value>, text: string, p: nat, phase: Phase, quota: Option<int>)
    requires Stops(text, p)
    requires (phase == First || phase == AfterComma) && text[p] != ']'
    ensures Continue(records, text, p, phase, quota)
      == var item := Scan(text, p);
         if item.None? then Outcome(records, Some(InvalidValue))
         else if !IsObject(item.value.0) then Outcome(records, Some(NotAnObject))
         else if Less(quota) == Some(0) then Outcome(records + [item.value.0], None)
         else Continue(records + [item.value.0], text, item.value.1, AfterValue, Less(quota))
  {
    hide Read, Skip, Scan, IsObject, Less;
    ReadValue(text, p, phase, quota);
    assert records + [] == records;
    var item := Scan(text, p);
    if item.Some? && IsObject(item.value.0) {
      var rest := if Less(quota) == Some(0) then [] else Read(text, item.value.1, AfterValue, Less(quota)).records;
      assert records + ([item.value.0] + rest) == records + [item.value.0] + rest;
    }
  }

  /** What decoding in the buffer tells about the whole text. */
  lemma ContinueDecoded(records: seq<Value>, text: string, base: nat, buffer: string, position: nat, eof: bool,
                        phase: Phase, quota: Option<int>)
    requires position < |buffer| && Holds(text, base, buffer, eof)
    requires Stops(text, base + position)
    requires (phase == First || phase == AfterComma) && text[base + position] != ']'
    ensures var item := Scan(buffer, position);
            var out := Continue(records, text, base + position, phase, quota);
            if item.None? then eof ==> out == Outcome(records, Some(InvalidValue))
            else if !IsObject(item.value.0) then out == Outcome(records, Some(NotAnObject))
            else if Less(quota) == Some(0) then out == Outcome(records + [item.value.0], None)
            else out == Continue(records + [item.value.0], text, base + item.value.1, AfterValue, Less(quota))
  {
    hide Stands, Skip, Scan, Continue;
    ContinueValue(records, text, base + position, phase, quota);
    if Scan(buffer, position).Some? {
      ScanStable(buffer, text, base, position);
    } else if eof && Scan(text, base + position).Some? {
      ScanAtEnd(buffer, text, base, position);
    }
  }

  /**
   * The streaming reader. For every chunk size it yields the records, and ends the way,
   * that reading the whole text at once does.
   */
  method IterJsonArrayRecords(text: string, limit: Option<int>, chunkSize: int) returns (out: Outcome)
    ensures out == if chunkSize <= 0 then Failed(BadChunkSize) else ReadArray(text, limit)
  {
    hide Stands, SameAhead, Stops, Read, Continue, Scan, Finish, IsObject;
    if chunkSize <= 0 {
      return Failed(BadChunkSize);
    }
    if limit.Some? && limit.value <= 0 {
      return Outcome([], None);
    }
    var base: nat, buffer, position: nat, eof := 0, "", 0, false;
    var started, expectValue, afterComma := false, true, false;
    var yielded: nat, records: seq<Value> := 0, [];
    StandsEmpty(text, 0);
    ContinueFrom(text, 0, Start, limit);
    while true
      invariant position <= |buffer| && Holds(text, base, buffer, eof)
      invariant limit.Some? ==> yielded < limit.value
      invariant !started ==> expectValue && !afterComma
      invariant Continue(records, text, base + position, PhaseOf(started, expectValue, afterComma), Left(limit,
                yielded))
             == ReadArray(text, limit)
      decreases |text| - base - |buffer|, !eof, |buffer| - position
    {
      ghost var here, phase, quota := base + position, PhaseOf(started, expectValue, afterComma), Left(limit, yielded);
      base, buffer, position, eof := Settle(text, chunkSize, base, buffer, position, eof);
      ContinueSkips(records, text, here, base + position, phase, quota);
      if position >= |buffer| {
        if eof {
          ContinueTruncated(records, text, phase, quota);
          return Outcome(records, Some(Truncated));
        }
        var buffer', eof' := Refill(text, chunkSize, base, buffer, position);
        base, buffer, position, eof := base + position, buffer', 0, eof';
        continue;
      }
      ContinueAt(records, text, base + position, phase, quota);
      if !started {
        if buffer[position] != '[' {
          return Outcome(records, Some(NotAnArray));
        }
        position, started := position + 1, true;
        continue;
      }
      if !expectValue {
        if buffer[position] == ',' {
          position, expectValue, afterComma := position + 1, true, true;
          continue;
        }
        if buffer[position] == ']' {
          var end := ExpectEnd(text, chunkSize, base, buffer, position + 1, eof);
          return Outcome(records, end.error);
        }
        return Outcome(records, Some(ExpectedSeparator));
      }
      if buffer[position] == ']' {
        if afterComma {
          return Outcome(records, Some(TrailingComma));
        }
        var end := ExpectEnd(text, chunkSize, base, buffer, position + 1, eof);
        return Outcome(records, end.error);
      }
      ContinueDecoded(records, text, base, buffer, position, eof, phase, quota);
      var item := Scan(buffer, position);
      if item.None? {
        if eof {
          return Outcome(records, Some(InvalidValue));
        }
        var buffer', eof' := Refill(text, chunkSize, base, buffer, position);
        base, buffer, position, eof := base + position, buffer', 0, eof';
        continue;
      }
      position, expectValue, afterComma := item.value.1, false, false;
      if !IsObject(item.value.0) {
        return Outcome(records, Some(NotAnObject));
      }
      records, yielded := records + [item.value.0], yielded + 1;
      if limit.Some? && yielded >= limit.value {
        return Outcome(records, None);
      }
    }
  }
}
