/**
 The JSON values that `json.JSONDecoder.raw_decode` accepts, as concrete syntax
 trees, and the recursive scanner that decodes one value at a given position.

 A tree keeps every character of the text it came from (white space, number
 lexemes, string bodies with their escapes), so printing it gives that text back.
 The scanner is proved to be the exact inverse of printing: what it returns prints
 to the scanned stretch, and it finds every well-formed value that is there.
 Stability under extension of the buffer is a consequence of the two.
 */
module JsonGrammar {

  import opened Base

  // ---------------------------------------------------------------- stretches of a text

  predicate At(s: string, i: nat, c: char) {
    i < |s| && s[i] == c
  }

  /** `t` stands in `s` at `i`. */
  predicate Stands(s: string, i: nat, t: string) {
    i + |t| <= |s| && s[i..i + |t|] == t
  }

  /** The stretch of `s` between two indices. */
  function Sub(s: string, i: nat, j: nat): (t: string)
    requires i <= j <= |s|
    ensures |t| == j - i && Stands(s, i, t)
  {
    s[i..j]
  }

  /** Concatenation under a name, so that proofs about the grammar can treat it as a symbol. */
  function Cat(a: string, b: string): (t: string)
    ensures |t| == |a| + |b|
  {
    a + b
  }

  lemma Bounded(s: string, i: nat, t: string)
    requires Stands(s, i, t)
    ensures i + |t| <= |s|
  {
  }

  lemma StandsEmpty(s: string, i: nat)
    requires i <= |s|
    ensures Stands(s, i, "")
  {
  }

  lemma StandsAt(s: string, i: nat, t: string, k: nat)
    requires Stands(s, i, t) && k < |t|
    ensures i + k < |s| && s[i + k] == t[k]
  {
    assert s[i..i + |t|][k] == s[i + k];
  }

  lemma StandsOne(text: string, q: nat)
    requires q < |text|
    ensures Stands(text, q, [text[q]])
  {
  }

  lemma SubIs(s: string, i: nat, t: string)
    requires Stands(s, i, t)
    ensures Sub(s, i, i + |t|) == t
  {
  }

  lemma Cut(s: string, i: nat, a: string, b: string)
    requires Stands(s, i, Cat(a, b))
    ensures Stands(s, i, a) && Stands(s, i + |a|, b)
  {
    assert s[i..i + |a|] == (a + b)[..|a|];
    assert s[i + |a|..i + |a| + |b|] == (a + b)[|a|..];
  }

  lemma Join(s: string, i: nat, a: string, b: string)
    requires Stands(s, i, a) && Stands(s, i + |a|, b)
    ensures Stands(s, i, Cat(a, b))
  {
    var m, e := i + |a|, i + |a| + |b|;
    assert s[i..e] == s[i..m] + s[m..e];
  }

  /** The end of the longest run of class `k` that starts at `i`. */
  function Skip(s: string, i: nat, k: Class): (e: nat)
    requires i <= |s|
    ensures i <= e <= |s|
    ensures AllIn(Sub(s, i, e), k)
    ensures e < |s| ==> !Member(s[e], k)
    decreases |s| - i
  {
    if i < |s| && Member(s[i], k) then
      var e := Skip(s, i + 1, k);
      assert s[i..e] == [s[i]] + s[i + 1..e];
      e
    else i
  }

  /** Its postconditions determine `Skip`. */
  lemma {:induction false} SkipIs(s: string, i: nat, k: Class, t: string)
    requires Stands(s, i, t) && AllIn(t, k)
    requires i + |t| < |s| ==> !Member(s[i + |t|], k)
    ensures Skip(s, i, k) == i + |t| && Sub(s, i, i + |t|) == t
    decreases |t|
  {
    if t != "" {
      StandsAt(s, i, t, 0);
      assert s[i + 1..i + |t|] == t[1..];
      SkipIs(s, i + 1, k, t[1..]);
    }
  }

  // ---------------------------------------------------------------- syntax trees

  /** `Str` holds the text between the quotes; `Number` the four parts of its lexeme. */
  datatype Value =
    | Word(word: string)
    | Number(sign: string, whole: string, frac: string, exp: string)
    | Str(body: string)
    | Compound(isObject: bool, gap: string, members: Members)

  /** The members of an array (no key) or of an object (with key), with the space around them. */
  datatype Members =
    | Nil
    | Cons(head: Head, tail: Members)

  datatype Head = Head(pre: string, key: Option<Key>, value: Value, post: string)

  datatype Key = Key(body: string, beforeColon: string, afterColon: string)

  function Open(isObject: bool): char { if isObject then '{' else '[' }
  function Close(isObject: bool): char { if isObject then '}' else ']' }

  function Print(v: Value): string {
    match v
    case Word(w) => w
    case Number(sign, whole, frac, exp) => Cat(Cat(Cat(sign, whole), frac), exp)
    case Str(b) => Cat(Cat("\"", b), "\"")
    case Compound(o, gap, Nil) => Cat(Cat([Open(o)], gap), [Close(o)])
    case Compound(o, _, ms) => Cat(Cat([Open(o)], PrintMembers(ms)), [Close(o)])
  }

  function PrintKey(key: Option<Key>): (t: string)
    ensures if key.Some? then t != "" && t[0] == '"' else t == ""
  {
    match key
    case None => ""
    case Some(Key(b, before, after)) => Cat(Cat(Cat(Cat(Cat("\"", b), "\""), before), ":"), after)
  }

  function PrintHead(h: Head): string {
    Cat(Cat(Cat(h.pre, PrintKey(h.key)), Print(h.value)), h.post)
  }

  function PrintMembers(ms: Members): string {
    match ms
    case Nil => ""
    case Cons(head, tail) =>
      if tail.Nil? then PrintHead(head) else Cat(PrintHead(head), Cat(",", PrintMembers(tail)))
  }

  // ---------------------------------------------------------------- well-formedness

  predicate IsWord(w: string) {
    w == "null" || w == "true" || w == "false" || w == "NaN" || w == "Infinity" || w == "-Infinity"
  }

  predicate IsDigits(s: string) { s != "" && AllIn(s, Digit) }

  predicate WellFormedWhole(s: string) { s == "0" || (IsDigits(s) && s[0] != '0') }

  predicate WellFormedFrac(s: string) { s == "" || (s[0] == '.' && IsDigits(s[1..])) }

  predicate WellFormedExp(s: string) {
    s == ""
    || ((s[0] == 'e' || s[0] == 'E')
        && (IsDigits(s[1..]) || (|s| > 1 && (s[1] == '+' || s[1] == '-') && IsDigits(s[2..]))))
  }

  /** A string body: no bare quote, no control character, only the escapes of RFC 8259, section 7. */
  predicate WellFormedBody(b: string) {
    b == ""
    || (if b[0] == '\\' then
          && |b| >= 2
          && (if b[1] == 'u' then
                |b| >= 6 && IsHex(b[2]) && IsHex(b[3]) && IsHex(b[4]) && IsHex(b[5]) && WellFormedBody(b[6..])
              else
                b[1] in "\"\\/bfnrt" && WellFormedBody(b[2..]))
        else
          b[0] != '"' && b[0] >= ' ' && WellFormedBody(b[1..]))
  }

  predicate WellFormedKey(key: Option<Key>) {
    key.Some? ==> WellFormedBody(key.value.body)
                  && AllIn(key.value.beforeColon, JsonSpace) && AllIn(key.value.afterColon, JsonSpace)
  }

  predicate WellFormed(v: Value)
    decreases v
  {
    match v
    case Word(w) => IsWord(w)
    case Number(sign, whole, frac, exp) =>
      (sign == "" || sign == "-") && WellFormedWhole(whole) && WellFormedFrac(frac) && WellFormedExp(exp)
    case Str(b) => WellFormedBody(b)
    case Compound(o, gap, ms) =>
      if ms.Nil? then AllIn(gap, JsonSpace) else gap == "" && WellFormedMembers(o, ms)
  }

  predicate WellFormedMembers(isObject: bool, ms: Members)
    decreases ms
  {
    match ms
    case Nil => true
    case Cons(head, tail) => WellFormedHead(isObject, head) && WellFormedMembers(isObject, tail)
  }

  predicate WellFormedHead(isObject: bool, h: Head)
    decreases h
  {
    && AllIn(h.pre, JsonSpace) && AllIn(h.post, JsonSpace)
    && h.key.Some? == isObject && WellFormedKey(h.key)
    && WellFormed(h.value)
  }

  // ---------------------------------------------------------------- the scanner

  /** The index of the quote that closes a string whose body starts at `i`. */
  function ScanBody(s: string, i: nat): (r: Option<nat>)
    requires i <= |s|
    ensures r.Some? ==> i <= r.value < |s| && s[r.value] == '"'
    decreases |s| - i
  {
    if i == |s| then None
    else if s[i] == '"' then Some(i)
    else if s[i] == '\\' then
      if i + 1 == |s| then None
      else if s[i + 1] == 'u' then
        if i + 6 <= |s| && IsHex(s[i + 2]) && IsHex(s[i + 3]) && IsHex(s[i + 4]) && IsHex(s[i + 5])
        then ScanBody(s, i + 6)
        else None
      else if s[i + 1] in "\"\\/bfnrt" then ScanBody(s, i + 2)
      else None
    else if s[i] < ' ' then None
    else ScanBody(s, i + 1)
  }

  /** The end of the optional fraction at `i`. */
  function FracEnd(s: string, i: nat): (e: nat)
    requires i <= |s|
    ensures i <= e <= |s|
  {
    if At(s, i, '.') && Skip(s, i + 1, Digit) > i + 1 then Skip(s, i + 1, Digit) else i
  }

  /** The end of the optional exponent at `i`. */
  function ExpEnd(s: string, i: nat): (e: nat)
    requires i <= |s|
    ensures i <= e <= |s|
  {
    if At(s, i, 'e') || At(s, i, 'E') then
      var j := if At(s, i + 1, '+') || At(s, i + 1, '-') then i + 2 else i + 1;
      if Skip(s, j, Digit) > j then Skip(s, j, Digit) else i
    else i
  }

  /** The end of the digits at `i`, of which a leading zero must be the only one. */
  function WholeEnd(s: string, i: nat): (e: nat)
    requires i <= |s|
    ensures i <= e <= |s|
  {
    if At(s, i, '0') then i + 1 else Skip(s, i, Digit)
  }

  function ScanNumber(s: string, i: nat): (r: Option<(Value, nat)>)
    requires i < |s|
    ensures r.Some? ==> i < r.value.1 <= |s| && r.value.0.Number?
  {
    var j := if s[i] == '-' then i + 1 else i;
    var k := WholeEnd(s, j);
    if k == j then None
    else
      var f := FracEnd(s, k);
      var e := ExpEnd(s, f);
      Some((Number(Sub(s, i, j), Sub(s, j, k), Sub(s, k, f), Sub(s, f, e)), e))
  }

  /** The constant that stands at `i`. */
  function ScanWord(s: string, i: nat): (r: Option<string>)
    requires i <= |s|
    ensures r.Some? ==> IsWord(r.value) && |r.value| > 0 && Stands(s, i, r.value)
  {
    if Stands(s, i, "null") then Some("null")
    else if Stands(s, i, "true") then Some("true")
    else if Stands(s, i, "false") then Some("false")
    else if Stands(s, i, "NaN") then Some("NaN")
    else if Stands(s, i, "Infinity") then Some("Infinity")
    else if Stands(s, i, "-Infinity") then Some("-Infinity")
    else None
  }

  /** `raw_decode(s, i)`: the value that starts exactly at `i` and the index after it. */
  function Scan(s: string, i: nat): (r: Option<(Value, nat)>)
    requires i <= |s|
    ensures r.Some? ==> i < r.value.1 <= |s|
    decreases |s| - i, 1
  {
    if i == |s| then None
    else if s[i] == '"' then
      var q := ScanBody(s, i + 1);
      if q.None? then None else Some((Str(Sub(s, i + 1, q.value)), q.value + 1))
    else if s[i] == '{' || s[i] == '[' then
      var o := s[i] == '{';
      var j := Skip(s, i + 1, JsonSpace);
      if At(s, j, Close(o)) then Some((Compound(o, Sub(s, i + 1, j), Nil), j + 1))
      else
        var ms := ScanMembers(s, i + 1, o);
        if ms.None? then None else Some((Compound(o, "", ms.value.0), ms.value.1))
    else
      var w := ScanWord(s, i);
      if w.Some? then Some((Word(w.value), i + |w.value|)) else ScanNumber(s, i)
  }

  /** Where the value of a member starts, given where the member's own text starts. */
  function ScanKey(s: string, j: nat, isObject: bool): (r: Option<(Option<Key>, nat)>)
    requires j <= |s|
    ensures r.Some? ==> j <= r.value.1 <= |s|
  {
    if !isObject then Some((None, j))
    else if !At(s, j, '"') then None
    else
      var q := ScanBody(s, j + 1);
      if q.None? then None
      else
        var c := Skip(s, q.value + 1, JsonSpace);
        if !At(s, c, ':') then None
        else
          var m := Skip(s, c + 1, JsonSpace);
          Some((Some(Key(Sub(s, j + 1, q.value), Sub(s, q.value + 1, c), Sub(s, c + 1, m))), m))
  }

  /** One member with the space around it, and the index after it. */
  function ScanHead(s: string, i: nat, isObject: bool): (r: Option<(Head, nat)>)
    requires i <= |s|
    ensures r.Some? ==> i < r.value.1 <= |s|
    decreases |s| - i, 2
  {
    var j := Skip(s, i, JsonSpace);
    var key := ScanKey(s, j, isObject);
    if key.None? then None
    else
      var v := Scan(s, key.value.1);
      if v.None? then None
      else
        var p := Skip(s, v.value.1, JsonSpace);
        Some((Head(Sub(s, i, j), key.value.0, v.value.0, Sub(s, v.value.1, p)), p))
  }

  /** One or more members up to and including the closing bracket. */
  function ScanMembers(s: string, i: nat, isObject: bool): (r: Option<(Members, nat)>)
    requires i <= |s|
    ensures r.Some? ==> i < r.value.1 <= |s| && r.value.0.Cons?
    decreases |s| - i, 3
  {
    var head := ScanHead(s, i, isObject);
    if head.None? then None
    else
      var (h, p) := head.value;
      if At(s, p, Close(isObject)) then Some((Cons(h, Nil), p + 1))
      else if At(s, p, ',') then
        var rest := ScanMembers(s, p + 1, isObject);
        if rest.None? then None else Some((Cons(h, rest.value.0), rest.value.1))
      else None
  }

  // ---------------------------------------------------------------- soundness

  /** A string body that scans is well formed. */
  lemma {:induction false} ScanBodySound(s: string, i: nat)
    requires i <= |s|
    requires ScanBody(s, i).Some?
    ensures WellFormedBody(Sub(s, i, ScanBody(s, i).value))
    decreases |s| - i
  {
    var e := ScanBody(s, i).value;
    var b := s[i..e];
    if s[i] != '"' {
      if s[i] == '\\' {
        if s[i + 1] == 'u' {
          ScanBodySound(s, i + 6);
          assert b[6..] == s[i + 6..e];
        } else {
          ScanBodySound(s, i + 2);
          assert b[2..] == s[i + 2..e];
        }
      } else {
        ScanBodySound(s, i + 1);
        assert b[1..] == s[i + 1..e];
      }
    }
  }

  lemma SignSound(s: string, i: nat)
    requires i < |s|
    ensures Sub(s, i, i) == "" && Sub(s, i, i + 1) == [s[i]]
  {
  }

  lemma WholeSound(s: string, i: nat)
    requires i <= |s| && WholeEnd(s, i) > i
    ensures WellFormedWhole(Sub(s, i, WholeEnd(s, i)))
  {
  }

  lemma FracSound(s: string, i: nat)
    requires i <= |s|
    ensures WellFormedFrac(Sub(s, i, FracEnd(s, i)))
  {
    var e := FracEnd(s, i);
    if i < e {
      assert s[i..e][1..] == s[i + 1..e];
    }
  }

  lemma ExpSound(s: string, i: nat)
    requires i <= |s|
    ensures WellFormedExp(Sub(s, i, ExpEnd(s, i)))
  {
    var e := ExpEnd(s, i);
    if i < e {
      assert s[i..e][1..] == s[i + 1..e];
      if At(s, i + 1, '+') || At(s, i + 1, '-') {
        assert s[i..e][2..] == s[i + 2..e];
      }
    }
  }

  lemma ScanNumberSound(s: string, i: nat)
    requires i < |s|
    requires ScanNumber(s, i).Some?
    ensures var (v, e) := ScanNumber(s, i).value;
            WellFormed(v) && Stands(s, i, Print(v)) && e == i + |Print(v)|
  {
    hide Stands, Cat, Sub, Skip, AllIn, WellFormedWhole, WellFormedFrac, WellFormedExp, WholeEnd, FracEnd, ExpEnd;
    var (v, e) := ScanNumber(s, i).value;
    var j := i + |v.sign|;
    var k := j + |v.whole|;
    assert v.sign == "" || v.sign == "-" by {
      SignSound(s, i);
    }
    WholeSound(s, j);
    FracSound(s, k);
    ExpSound(s, FracEnd(s, k));
    Join(s, i, v.sign, v.whole);
    Join(s, i, Cat(v.sign, v.whole), v.frac);
    Join(s, i, Cat(Cat(v.sign, v.whole), v.frac), v.exp);
  }

  lemma ScanKeySound(s: string, j: nat, isObject: bool)
    requires j <= |s|
    requires ScanKey(s, j, isObject).Some?
    ensures var (key, m) := ScanKey(s, j, isObject).value;
            && key.Some? == isObject && WellFormedKey(key)
            && Stands(s, j, PrintKey(key)) && m == j + |PrintKey(key)|
  {
    hide Stands, Cat, Sub, Skip, AllIn, WellFormedBody, ScanBody;
    var (key, m) := ScanKey(s, j, isObject).value;
    StandsEmpty(s, j);
    if isObject {
      ScanBodySound(s, j + 1);
      var Key(b, before, after) := key.value;
      Join(s, j, "\"", b);
      Join(s, j, Cat("\"", b), "\"");
      Join(s, j, Cat(Cat("\"", b), "\""), before);
      Join(s, j, Cat(Cat(Cat("\"", b), "\""), before), ":");
      Join(s, j, Cat(Cat(Cat(Cat("\"", b), "\""), before), ":"), after);
    }
  }

  /** What the scanner returns is well formed and prints to exactly the stretch it scanned. */
  lemma {:induction false} ScanSound(s: string, i: nat)
    requires i <= |s|
    requires Scan(s, i).Some?
    ensures var (v, e) := Scan(s, i).value;
            WellFormed(v) && Stands(s, i, Print(v)) && e == i + |Print(v)|
    decreases |s| - i, 1
  {
    hide Stands, Cat, Sub, Skip, AllIn, WellFormedBody, ScanBody, ScanMembers, WellFormedMembers, ScanNumber,
        PrintMembers;
    var (v, e) := Scan(s, i).value;
    if s[i] == '"' {
      ScanBodySound(s, i + 1);
      Join(s, i, "\"", v.body);
      Join(s, i, Cat("\"", v.body), "\"");
    } else if s[i] == '{' || s[i] == '[' {
      var inner := if v.members.Nil? then v.gap else PrintMembers(v.members);
      if v.members.Cons? {
        ScanMembersSound(s, i + 1, v.isObject);
      }
      StandsOne(s, i);
      StandsOne(s, e - 1);
      Join(s, i, [s[i]], inner);
      Join(s, i, Cat([s[i]], inner), [Close(v.isObject)]);
    } else if ScanWord(s, i).None? {
      ScanNumberSound(s, i);
    }
  }

  lemma {:induction false} ScanHeadSound(s: string, i: nat, isObject: bool)
    requires i <= |s|
    requires ScanHead(s, i, isObject).Some?
    ensures var (h, p) := ScanHead(s, i, isObject).value;
            WellFormedHead(isObject, h) && Stands(s, i, PrintHead(h)) && p == i + |PrintHead(h)|
    decreases |s| - i, 2
  {
    hide Stands, Cat, Sub, Skip, AllIn, Scan, ScanKey, WellFormed, WellFormedKey, PrintKey, Print;
    var Head(pre, key, v, post) := ScanHead(s, i, isObject).value.0;
    ScanKeySound(s, i + |pre|, isObject);
    ScanSound(s, i + |pre| + |PrintKey(key)|);
    Join(s, i, pre, PrintKey(key));
    Join(s, i, Cat(pre, PrintKey(key)), Print(v));
    Join(s, i, Cat(Cat(pre, PrintKey(key)), Print(v)), post);
  }

  lemma {:induction false} ScanMembersSound(s: string, i: nat, isObject: bool)
    requires i <= |s|
    requires ScanMembers(s, i, isObject).Some?
    ensures var (ms, e) := ScanMembers(s, i, isObject).value;
            && WellFormedMembers(isObject, ms) && Stands(s, i, PrintMembers(ms))
            && e == i + |PrintMembers(ms)| + 1 && s[e - 1] == Close(isObject)
    decreases |s| - i, 3
  {
    hide Stands, Cat, ScanHead, WellFormedHead, PrintHead;
    var Cons(h, tail) := ScanMembers(s, i, isObject).value.0;
    ScanHeadSound(s, i, isObject);
    if tail.Cons? {
      var p := i + |PrintHead(h)|;
      ScanMembersSound(s, p + 1, isObject);
      Join(s, p, ",", PrintMembers(tail));
      Join(s, i, PrintHead(h), Cat(",", PrintMembers(tail)));
    }
  }

  // ---------------------------------------------------------------- completeness

  lemma {:induction false} ScanBodyComplete(s: string, i: nat, b: string)
    requires WellFormedBody(b)
    requires Stands(s, i, b) && At(s, i + |b|, '"')
    ensures ScanBody(s, i) == Some(i + |b|) && Sub(s, i, i + |b|) == b
    decreases |b|
  {
    if b == "" {
    } else {
      var n := if b[0] != '\\' then 1 else if b[1] == 'u' then 6 else 2;
      assert b == b[..n] + b[n..];
      Cut(s, i, b[..n], b[n..]);
      ScanBodyComplete(s, i + n, b[n..]);
      StandsAt(s, i, b, 0);
      if n > 1 {
        StandsAt(s, i, b, 1);
      }
      if n == 6 {
        StandsAt(s, i, b, 2);
        StandsAt(s, i, b, 3);
        StandsAt(s, i, b, 4);
        StandsAt(s, i, b, 5);
      }
    }
  }

  /** A character that would make the number before it longer. */
  predicate Continues(s: string, e: nat) {
    e < |s| && (Member(s[e], Digit) || s[e] == '.' || s[e] == 'e' || s[e] == 'E')
  }

  lemma WholeComplete(s: string, i: nat, t: string)
    requires WellFormedWhole(t) && Stands(s, i, t)
    requires i + |t| < |s| ==> !Member(s[i + |t|], Digit)
    ensures t != "" && Member(s[i], Digit)
    ensures WholeEnd(s, i) == i + |t| && Sub(s, i, i + |t|) == t
  {
    StandsAt(s, i, t, 0);
    if t != "0" {
      SkipIs(s, i, Digit, t);
    }
  }

  lemma FracComplete(s: string, i: nat, t: string)
    requires WellFormedFrac(t) && Stands(s, i, t)
    requires i + |t| < |s| ==> !Member(s[i + |t|], Digit) && s[i + |t|] != '.'
    ensures FracEnd(s, i) == i + |t| && Sub(s, i, i + |t|) == t
  {
    if t != "" {
      StandsAt(s, i, t, 0);
      assert s[i + 1..i + |t|] == t[1..];
      SkipIs(s, i + 1, Digit, t[1..]);
    }
  }

  /** Where the digits of an exponent start. */
  function ExpSkip(t: string): nat { if |t| > 1 && (t[1] == '+' || t[1] == '-') then 2 else 1 }

  lemma ExpDigits(t: string)
    requires WellFormedExp(t) && t != ""
    ensures |t| > ExpSkip(t) && IsDigits(t[ExpSkip(t)..])
  {
    if |t| > 1 && IsDigits(t[1..]) {
      assert t[1..][0] == t[1];
    }
  }

  lemma ExpComplete(s: string, i: nat, t: string)
    requires WellFormedExp(t) && Stands(s, i, t)
    requires !Continues(s, i + |t|)
    ensures ExpEnd(s, i) == i + |t| && Sub(s, i, i + |t|) == t
  {
    SubIs(s, i, t);
    if t != "" {
      hide WellFormedExp, IsDigits;
      var j := ExpSkip(t);
      ExpDigits(t);
      ExpStarts(t);
      StandsAt(s, i, t, 0);
      StandsAt(s, i, t, 1);
      assert Cat(t[..j], t[j..]) == t;
      Cut(s, i, t[..j], t[j..]);
      DigitsAreDigits(t[j..]);
      hide Stands, Cat, Sub;
      SkipIs(s, i + j, Digit, t[j..]);
    }
  }

  lemma ExpStarts(t: string)
    requires WellFormedExp(t) && t != ""
    ensures t[0] == 'e' || t[0] == 'E'
  {
  }

  lemma DigitsAreDigits(t: string)
    requires IsDigits(t)
    ensures t != "" && AllIn(t, Digit)
  {
  }

  /** Where the four parts of a number stand, and how each of them starts. */
  lemma NumberParts(s: string, i: nat, v: Value)
    requires v.Number? && WellFormed(v)
    requires Stands(s, i, Print(v))
    ensures |Print(v)| == |v.sign| + |v.whole| + |v.frac| + |v.exp|
    ensures Stands(s, i, v.sign)
    ensures Stands(s, i + |v.sign|, v.whole)
    ensures Stands(s, i + |v.sign| + |v.whole|, v.frac)
    ensures Stands(s, i + |v.sign| + |v.whole| + |v.frac|, v.exp)
    ensures i < |s| && (v.sign == "" <==> s[i] != '-')
    ensures v.whole != "" && i + |v.sign| < |s| && Member(s[i + |v.sign|], Digit)
  {
    hide Stands, Cat, WellFormedFrac, WellFormedExp;
    Cut(s, i, Cat(Cat(v.sign, v.whole), v.frac), v.exp);
    Cut(s, i, Cat(v.sign, v.whole), v.frac);
    Cut(s, i, v.sign, v.whole);
    StandsAt(s, i + |v.sign|, v.whole, 0);
    if v.sign != "" {
      StandsAt(s, i, v.sign, 0);
    }
  }

  /** What follows the digits of a number, unless it is made longer, is no digit; likewise for the fraction. */
  lemma NumberStops(s: string, f: nat, frac: string, exp: string)
    requires WellFormedFrac(frac) && WellFormedExp(exp)
    requires Stands(s, f, frac) && Stands(s, f + |frac|, exp)
    requires !Continues(s, f + |frac| + |exp|)
    ensures f < |s| ==> !Member(s[f], Digit)
    ensures f + |frac| < |s| ==> !Member(s[f + |frac|], Digit) && s[f + |frac|] != '.'
  {
    hide Stands, IsDigits;
    if frac != "" {
      StandsAt(s, f, frac, 0);
    }
    if exp != "" {
      StandsAt(s, f + |frac|, exp, 0);
    }
  }

  lemma ScanNumberComplete(s: string, i: nat, v: Value)
    requires v.Number? && WellFormed(v)
    requires Stands(s, i, Print(v))
    requires !Continues(s, i + |Print(v)|)
    ensures i < |s| && ScanNumber(s, i) == Some((v, i + |Print(v)|))
  {
    hide Stands, Sub, Print, Continues, Member, WellFormedWhole, WellFormedFrac, WellFormedExp, WholeEnd, FracEnd,
        ExpEnd;
    NumberParts(s, i, v);
    var j := i + |v.sign|;
    var k := j + |v.whole|;
    SubIs(s, i, v.sign);
    NumberStops(s, k, v.frac, v.exp);
    WholeComplete(s, j, v.whole);
    FracComplete(s, k, v.frac);
    ExpComplete(s, k + |v.frac|, v.exp);
  }

  /** Two characters tell the constants apart. */
  lemma OtherWords(s: string, i: nat, u: string)
    requires |u| >= 2
    ensures Stands(s, i, u) ==> i + 1 < |s| && s[i] == u[0] && s[i + 1] == u[1]
  {
    if Stands(s, i, u) {
      StandsAt(s, i, u, 0);
      StandsAt(s, i, u, 1);
    }
  }

  lemma ScanWordComplete(s: string, i: nat, w: string)
    requires IsWord(w) && Stands(s, i, w)
    ensures i < |s| && s[i] != '"' && s[i] != '{' && s[i] != '['
    ensures ScanWord(s, i) == Some(w)
  {
    StandsAt(s, i, w, 0);
    StandsAt(s, i, w, 1);
    OtherWords(s, i, "null");
    OtherWords(s, i, "true");
    OtherWords(s, i, "false");
    OtherWords(s, i, "NaN");
    OtherWords(s, i, "Infinity");
    OtherWords(s, i, "-Infinity");
  }

  /** The first character of a well-formed value decides which branch the scanner takes. */
  predicate Starts(v: Value, c: char) {
    match v
    case Word(_) => c in "ntfNI-"
    case Number(_, _, _, _) => c == '-' || Member(c, Digit)
    case Str(_) => c == '"'
    case Compound(o, _, _) => c == Open(o)
  }

  lemma PrintStarts(v: Value)
    requires WellFormed(v)
    ensures Print(v) != "" && Starts(v, Print(v)[0])
  {
  }

  lemma Brackets(s: string, i: nat, open: string, inner: string, close: string)
    requires |open| == |close| == 1
    requires Stands(s, i, Cat(Cat(open, inner), close))
    ensures At(s, i, open[0]) && Stands(s, i + 1, inner) && At(s, i + 1 + |inner|, close[0])
  {
    hide Stands, Cat;
    Cut(s, i, Cat(open, inner), close);
    Cut(s, i, open, inner);
    StandsAt(s, i, open, 0);
    StandsAt(s, i + 1 + |inner|, close, 0);
  }

  /** The scanner finds every well-formed value, and only a longer number can hide a number. */
  lemma {:induction false} ScanComplete(s: string, i: nat, v: Value)
    requires WellFormed(v)
    requires Stands(s, i, Print(v))
    requires v.Number? ==> !Continues(s, i + |Print(v)|)
    ensures Scan(s, i) == Some((v, i + |Print(v)|))
    decreases v
  {
    hide Stands, Cat, Sub, Skip, AllIn, WellFormedBody, ScanBody, ScanMembers, WellFormedMembers, ScanNumber,
        PrintMembers, ScanWord;
    var e := i + |Print(v)|;
    PrintStarts(v);
    StandsAt(s, i, Print(v), 0);
    match v
    case Word(w) =>
      ScanWordComplete(s, i, w);
    case Number(_, _, _, _) =>
      NumberIsNoWord(s, i, v);
      ScanNumberComplete(s, i, v);
    case Str(b) =>
      Brackets(s, i, "\"", b, "\"");
      ScanBodyComplete(s, i + 1, b);
    case Compound(o, gap, ms) =>
      Brackets(s, i, [Open(o)], if ms.Nil? then gap else PrintMembers(ms), [Close(o)]);
      if ms.Nil? {
        SkipIs(s, i + 1, JsonSpace, gap);
      } else {
        ScanMembersComplete(s, i + 1, o, ms);
      }
  }

  lemma NumberIsNoWord(s: string, i: nat, v: Value)
    requires v.Number? && WellFormed(v) && Stands(s, i, Print(v))
    ensures ScanWord(s, i).None?
  {
    hide Stands, Cat, Sub, WellFormedFrac, WellFormedExp;
    NumberParts(s, i, v);
    OtherWords(s, i, "null");
    OtherWords(s, i, "true");
    OtherWords(s, i, "false");
    OtherWords(s, i, "NaN");
    OtherWords(s, i, "Infinity");
    OtherWords(s, i, "-Infinity");
  }

  lemma ScanKeyComplete(s: string, j: nat, key: Option<Key>)
    requires WellFormedKey(key) && Stands(s, j, PrintKey(key))
    requires j + |PrintKey(key)| < |s| ==> !Member(s[j + |PrintKey(key)|], JsonSpace)
    ensures ScanKey(s, j, key.Some?) == Some((key, j + |PrintKey(key)|))
  {
    hide Stands, Cat, Sub, Skip, AllIn, WellFormedBody, ScanBody;
    if key.Some? {
      var Key(b, before, after) := key.value;
      Cut(s, j, Cat(Cat(Cat(Cat("\"", b), "\""), before), ":"), after);
      Cut(s, j, Cat(Cat(Cat("\"", b), "\""), before), ":");
      Cut(s, j, Cat(Cat("\"", b), "\""), before);
      Brackets(s, j, "\"", b, "\"");
      var q := j + 1 + |b|;
      var c := q + 1 + |before|;
      StandsAt(s, c, ":", 0);
      ScanBodyComplete(s, j + 1, b);
      SkipIs(s, q + 1, JsonSpace, before);
      SkipIs(s, c + 1, JsonSpace, after);
    }
  }

  /** A character that neither is white space nor makes a number longer. */
  predicate Ends(c: char) {
    c == ',' || c == ']' || c == '}'
  }

  lemma SpaceThenEnds(s: string, n: nat, post: string)
    requires Stands(s, n, post) && AllIn(post, JsonSpace)
    requires n + |post| < |s| && Ends(s[n + |post|])
    ensures !Continues(s, n) && !Member(s[n + |post|], JsonSpace)
  {
    hide Stands;
    if post != "" {
      StandsAt(s, n, post, 0);
    }
  }

  lemma {:induction false} ScanHeadComplete(s: string, i: nat, isObject: bool, h: Head)
    requires WellFormedHead(isObject, h)
    requires Stands(s, i, PrintHead(h))
    requires i + |PrintHead(h)| < |s| && Ends(s[i + |PrintHead(h)|])
    ensures !At(s, Skip(s, i, JsonSpace), Close(isObject))
    ensures ScanHead(s, i, isObject) == Some((h, i + |PrintHead(h)|))
    decreases h
  {
    hide Stands, Cat, Sub, Skip, AllIn, Ends, Continues, Scan, ScanKey, WellFormed, WellFormedKey, PrintKey, Print;
    var Head(pre, key, v, post) := h;
    var k := PrintKey(key);
    Cut(s, i, Cat(Cat(pre, k), Print(v)), post);
    Cut(s, i, Cat(pre, k), Print(v));
    Cut(s, i, pre, k);
    var j := i + |pre|;
    var m := j + |k|;
    var n := m + |Print(v)|;
    PrintStarts(v);
    StandsAt(s, m, Print(v), 0);
    if key.Some? {
      StandsAt(s, j, k, 0);
    }
    SkipIs(s, i, JsonSpace, pre);
    ScanKeyComplete(s, j, key);
    SpaceThenEnds(s, n, post);
    SkipIs(s, n, JsonSpace, post);
    ScanComplete(s, m, v);
  }

  lemma {:induction false} ScanMembersComplete(s: string, i: nat, isObject: bool, ms: Members)
    requires ms.Cons? && WellFormedMembers(isObject, ms)
    requires Stands(s, i, PrintMembers(ms))
    requires At(s, i + |PrintMembers(ms)|, Close(isObject))
    ensures !At(s, Skip(s, i, JsonSpace), Close(isObject))
    ensures ScanMembers(s, i, isObject) == Some((ms, i + |PrintMembers(ms)| + 1))
    decreases ms
  {
    hide Stands, Cat, Skip, ScanHead, PrintHead, WellFormedHead;
    var Cons(h, tail) := ms;
    if tail.Cons? {
      var p := i + |PrintHead(h)|;
      Cut(s, i, PrintHead(h), Cat(",", PrintMembers(tail)));
      Cut(s, p, ",", PrintMembers(tail));
      StandsAt(s, p, ",", 0);
      ScanMembersComplete(s, p + 1, isObject, tail);
    }
    ScanHeadComplete(s, i, isObject, h);
  }

  // ---------------------------------------------------------------- stability

  /** `u` stands in the stretch `s` of `t` exactly when it stands there in `t` and ends inside `s`. */
  lemma StandsWithin(s: string, t: string, b: nat, i: nat, u: string)
    requires Stands(t, b, s)
    ensures Stands(s, i, u) <==> Stands(t, b + i, u) && i + |u| <= |s|
  {
    if i + |u| <= |s| {
      forall k | i <= k < i + |u|
        ensures s[k] == t[b + k]
      {
        StandsAt(t, b, s, k);
      }
      assert s[i..i + |u|] == t[b + i..b + i + |u|];
    }
  }

  lemma NumberStaysNumber(t: string, i: nat, v: Value)
    requires v.Number? && WellFormed(v) && Stands(t, i, Print(v))
    ensures i < |t| && Scan(t, i).Some? && Scan(t, i).value.0.Number?
  {
    hide Stands, Print, WellFormedFrac, WellFormedExp, WellFormedWhole, ScanWord;
    NumberIsNoWord(t, i, v);
    NumberParts(t, i, v);
    assert t[i] == '-' || Member(t[i], Digit);
    assert WholeEnd(t, i + |v.sign|) > i + |v.sign|;
  }

  /**
   * Decoding in a buffer `s` that holds the stretch of `t` from `b` on. A value decoded in the
   * buffer is the value decoded in the whole text, unless it is a number, which may turn out
   * longer but stays a number.
   */
  lemma ScanStable(s: string, t: string, b: nat, i: nat)
    requires i <= |s| && Stands(t, b, s)
    requires Scan(s, i).Some?
    ensures b + i <= |t|
    ensures var (v, e) := Scan(s, i).value;
            if v.Number? then Scan(t, b + i).Some? && Scan(t, b + i).value.0.Number?
            else Scan(t, b + i) == Some((v, b + e))
  {
    hide WellFormed, Print, Stands;
    Bounded(t, b, s);
    var (v, e) := Scan(s, i).value;
    ScanSound(s, i);
    StandsWithin(s, t, b, i, Print(v));
    if v.Number? {
      NumberStaysNumber(t, b + i, v);
    } else {
      ScanComplete(t, b + i, v);
    }
  }

  /** A buffer that reaches the end of the text decodes whenever the text does. */
  lemma ScanAtEnd(s: string, t: string, b: nat, i: nat)
    requires i <= |s| && Stands(t, b, s) && b + |s| == |t|
    requires Scan(t, b + i).Some?
    ensures Scan(s, i).Some?
  {
    hide WellFormed, Print, Stands;
    var (v, e) := Scan(t, b + i).value;
    ScanSound(t, b + i);
    StandsWithin(s, t, b, i, Print(v));
    if v.Number? {
      NumberStaysNumber(s, i, v);
    } else {
      ScanComplete(s, i, v);
    }
  }

  /** Objects stand in braces and arrays in brackets. */
  lemma Bracketed(v: Value)
    requires v.Compound?
    ensures var t := Print(v);
            |t| >= 2 && (if v.isObject then t[0] == '{' && t[|t| - 1] == '}' else t[0] == '[' && t[|t| - 1] == ']')
  {
    hide PrintMembers;
  }
}
