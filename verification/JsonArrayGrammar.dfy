/**
 What the array reader accepts: exactly the texts of well-formed arrays of objects,
 whose objects it returns in order; and what a limit does to its answer.
 */
module JsonArrayGrammar {
  import opened Base
  import opened JsonGrammar
  import opened JsonArrayReader

  /** A document: white space, the array (empty, or with members), white space. */
  datatype Document = Document(lead: string, gap: string, items: Members, trail: string)

  function Body(d: Document): string { if d.items.Nil? then d.gap else PrintMembers(d.items) }

  function PrintDocument(d: Document): string {
    Cat(Cat(Cat(Cat(d.lead, "["), Body(d)), "]"), d.trail)
  }

  predicate WellFormedItems(items: Members) {
    match items
    case Nil => true
    case Cons(h, tail) => WellFormedItem(h) && WellFormedItems(tail)
  }

  /** An object between separators. The reader allows all of Python's white space around it. */
  predicate WellFormedItem(h: Head) {
    && AllIn(h.pre, PythonSpace) && AllIn(h.post, PythonSpace)
    && h.key.None? && IsObject(h.value) && WellFormed(h.value)
  }

  predicate WellFormedDocument(d: Document) {
    && AllIn(d.lead, PythonSpace) && AllIn(d.trail, PythonSpace)
    && WellFormedItems(d.items) && (d.items.Nil? ==> AllIn(d.gap, PythonSpace))
  }

  function Objects(items: Members): seq<Value> {
    match items
    case Nil => []
    case Cons(h, tail) => [h.value] + Objects(tail)
  }

  // ---------------------------------------------------------------- every document is accepted

  /** White space `t` at `p` before a character that is none. */
  lemma SpacesThen(text: string, p: nat, t: string)
    requires Stands(text, p, t) && AllIn(t, PythonSpace)
    requires p + |t| < |text| && !Member(text[p + |t|], PythonSpace)
    ensures Skip(text, p, PythonSpace) == p + |t| && p <= |text|
  {
    SkipIs(text, p, PythonSpace, t);
  }

  lemma FinishAfter(text: string, p: nat, trail: string)
    requires Stands(text, p, trail) && AllIn(trail, PythonSpace) && p + |trail| == |text|
    ensures Finish(text, p) == Outcome([], None)
  {
    SkipIs(text, p, PythonSpace, trail);
  }

  lemma ItemStands(text: string, p: nat, h: Head)
    requires WellFormedItem(h) && Stands(text, p, PrintHead(h))
    ensures |PrintHead(h)| == |h.pre| + |Print(h.value)| + |h.post|
    ensures Stands(text, p, h.pre) && Stands(text, p + |h.pre|, Print(h.value))
    ensures Stands(text, p + |h.pre| + |Print(h.value)|, h.post)
    ensures At(text, p + |h.pre|, '{')
  {
    hide Stands, Cat, AllIn, WellFormed, Print;
    var Head(pre, key, v, post) := h;
    Cut(text, p, Cat(Cat(pre, PrintKey(key)), Print(v)), post);
    Cut(text, p, Cat(pre, PrintKey(key)), Print(v));
    Cut(text, p, pre, PrintKey(key));
    PrintStarts(v);
    StandsAt(text, p + |pre|, Print(v), 0);
  }

  lemma {:induction false} ReadItems(text: string, p: nat, phase: Phase, items: Members, trail: string)
    requires phase == First || phase == AfterComma
    requires items.Cons? && WellFormedItems(items) && Stands(text, p, PrintMembers(items))
    requires At(text, p + |PrintMembers(items)|, ']')
    requires Stands(text, p + |PrintMembers(items)| + 1, trail) && AllIn(trail, PythonSpace)
    requires p + |PrintMembers(items)| + 1 + |trail| == |text|
    ensures p <= |text| && Read(text, p, phase, None) == Outcome(Objects(items), None)
    decreases items
  {
    hide Stands, Cat, AllIn, WellFormedItem, Skip, Read, Print, PrintHead, Finish, Objects;
    var Cons(h, tail) := items;
    var q := p + |PrintHead(h)|;
    if tail.Cons? {
      Cut(text, p, PrintHead(h), Cat(",", PrintMembers(tail)));
      Cut(text, q, ",", PrintMembers(tail));
      StandsAt(text, q, ",", 0);
      ReadItems(text, q + 1, AfterComma, tail, trail);
    } else {
      FinishAfter(text, q + 1, trail);
    }
    ReadItem(text, p, phase, h);
    ObjectsOf(h, tail);
  }

  lemma ObjectsOf(h: Head, tail: Members)
    ensures Objects(Cons(h, tail)) == [h.value] + Objects(tail)
    ensures Objects(Nil) == []
  {
  }

  /** Reading one item leads to the separator after it. */
  lemma ReadItem(text: string, p: nat, phase: Phase, h: Head)
    requires phase == First || phase == AfterComma
    requires WellFormedItem(h) && Stands(text, p, PrintHead(h))
    requires p + |PrintHead(h)| < |text| && text[p + |PrintHead(h)|] in ",]"
    ensures p <= |text|
    ensures var q := p + |PrintHead(h)|;
            var rest := if text[q] == ',' then Read(text, q + 1, AfterComma, None) else Finish(text, q + 1);
            Read(text, p, phase, None) == Outcome([h.value] + rest.records, rest.error)
  {
    hide Stands, AllIn, Skip, Scan, PrintHead, WellFormed;
    ItemStands(text, p, h);
    var j := p + |h.pre|;
    var n := j + |Print(h.value)|;
    SpacesThen(text, p, h.pre);
    SpacesThen(text, n, h.post);
    ScanComplete(text, j, h.value);
    AtSeparator(text, n, n + |h.post|);
  }

  lemma AtSeparator(text: string, p: nat, q: nat)
    requires p <= q < |text| && Skip(text, p, PythonSpace) == q && text[q] in ",]"
    ensures Read(text, p, AfterValue, None)
         == if text[q] == ',' then Read(text, q + 1, AfterComma, None) else Finish(text, q + 1)
  {
    hide Skip, Scan, Finish;
  }

  /** Where the parts of a document stand in its text. */
  lemma PartsStand(d: Document)
    ensures var text, p := PrintDocument(d), |d.lead| + 1;
            var q := p + |Body(d)|;
            && |text| == q + 1 + |d.trail| && text[p - 1] == '[' && text[q] == ']'
            && Stands(text, 0, d.lead) && Stands(text, p, Body(d)) && Stands(text, q + 1, d.trail)
  {
    hide Stands, Cat, Body;
    var text := PrintDocument(d);
    Whole(text);
    Cut(text, 0, Cat(Cat(Cat(d.lead, "["), Body(d)), "]"), d.trail);
    Cut(text, 0, Cat(Cat(d.lead, "["), Body(d)), "]");
    Cut(text, 0, Cat(d.lead, "["), Body(d));
    Cut(text, 0, d.lead, "[");
    StandsAt(text, |d.lead|, "[", 0);
    StandsAt(text, |d.lead| + 1 + |Body(d)|, "]", 0);
  }

  /** Every well-formed document is read in full, object by object. */
  lemma ReadsDocument(d: Document)
    requires WellFormedDocument(d)
    ensures ReadArray(PrintDocument(d), None) == Outcome(Objects(d.items), None)
  {
    hide Stands, AllIn, Skip, Scan, PrintDocument, PrintMembers, WellFormedItems, Objects, Read, Finish;
    PartsStand(d);
    var text, p := PrintDocument(d), |d.lead| + 1;
    var q := p + |Body(d)|;
    SpacesThen(text, 0, d.lead);
    OpensArray(text, 0, p - 1);
    ObjectsOf(Head("", None, Word(""), ""), d.items);
    if d.items.Nil? {
      SpacesThen(text, p, d.gap);
      FinishAfter(text, q + 1, d.trail);
      ClosesEmpty(text, p, q);
    } else {
      ReadItems(text, p, First, d.items, d.trail);
    }
  }

  lemma Whole(text: string)
    ensures Stands(text, 0, text)
  {
  }

  lemma OpensArray(text: string, p: nat, q: nat)
    requires p <= q < |text| && Skip(text, p, PythonSpace) == q && text[q] == '['
    ensures Read(text, p, Start, None) == Read(text, q + 1, First, None)
  {
    hide Skip, Scan, Finish;
  }

  lemma ClosesEmpty(text: string, p: nat, q: nat)
    requires p <= q < |text| && Skip(text, p, PythonSpace) == q && text[q] == ']'
    ensures Read(text, p, First, None) == Finish(text, q + 1)
  {
    hide Skip, Scan, Finish;
  }

  // ---------------------------------------------------------------- only documents are accepted

  /** The members, or the gap, and the tail of an accepted rest of the text. */
  lemma {:induction false} AcceptedItems(text: string, p: nat, phase: Phase) returns (gap: string, items: Members,
                                         trail: string)
    requires p <= |text| && (phase == First || phase == AfterComma)
    requires Read(text, p, phase, None).error.None?
    ensures WellFormedItems(items) && Objects(items) == Read(text, p, phase, None).records
    ensures items.Nil? ==> AllIn(gap, PythonSpace)
    ensures phase == AfterComma ==> items.Cons?
    ensures var body := if items.Nil? then gap else PrintMembers(items);
            && Stands(text, p, body) && At(text, p + |body|, ']')
            && Stands(text, p + |body| + 1, trail) && p + |body| + 1 + |trail| == |text|
            && AllIn(trail, PythonSpace)
    decreases |text| - p
  {
    hide Stands, Cat, AllIn, Skip, Read, Print, PrintHead, Finish, WellFormedItem, Sub;
    AcceptedStart(text, p, phase);
    var q := Skip(text, p, PythonSpace);
    if text[q] == ']' {
      gap, items := Sub(text, p, q), Nil;
      trail := AcceptedEnd(text, q + 1);
    } else {
      gap := "";
      var h, n := AcceptedItem(text, p, phase);
      if text[n] == ']' {
        items := Cons(h, Nil);
        trail := AcceptedEnd(text, n + 1);
      } else {
        var _, tail, end := AcceptedItems(text, n + 1, AfterComma);
        items, trail := Cons(h, tail), end;
        Join(text, n, ",", PrintMembers(tail));
        Join(text, p, PrintHead(h), Cat(",", PrintMembers(tail)));
      }
    }
  }

  lemma AcceptedStart(text: string, p: nat, phase: Phase)
    requires p <= |text| && (phase == First || phase == AfterComma)
    requires Read(text, p, phase, None).error.None?
    ensures var q := Skip(text, p, PythonSpace);
            q < |text| && (text[q] == ']' ==> phase == First && Read(text, p, phase, None) == Finish(text, q + 1))
  {
    hide Skip, Scan, Finish;
  }

  lemma AcceptedEnd(text: string, p: nat) returns (trail: string)
    requires p <= |text| && Finish(text, p).error.None?
    ensures Stands(text, p, trail) && AllIn(trail, PythonSpace) && p + |trail| == |text|
    ensures Finish(text, p) == Outcome([], None)
  {
    trail := Sub(text, p, Skip(text, p, PythonSpace));
  }

  /** The first item of an accepted rest, and the separator after it. */
  lemma AcceptedItem(text: string, p: nat, phase: Phase) returns (h: Head, n: nat)
    requires p <= |text| && (phase == First || phase == AfterComma)
    requires Read(text, p, phase, None).error.None?
    requires var q := Skip(text, p, PythonSpace); q < |text| && text[q] != ']'
    ensures WellFormedItem(h) && Stands(text, p, PrintHead(h)) && n == p + |PrintHead(h)|
    ensures n < |text| && text[n] in ",]"
    ensures var rest := if text[n] == ',' then Read(text, n + 1, AfterComma, None) else Finish(text, n + 1);
            Read(text, p, phase, None) == Outcome([h.value] + rest.records, rest.error)
  {
    hide Stands, Cat, AllIn, Scan, Print, Finish, IsObject, Sub, WellFormed, Skip;
    var q := Skip(text, p, PythonSpace);
    var (v, e) := Scan(text, q).value;
    n := Skip(text, e, PythonSpace);
    h := Head(Sub(text, p, q), None, v, Sub(text, e, n));
    ScanSound(text, q);
    AcceptedSeparator(text, e, n);
    AtSeparator(text, e, n);
    Join(text, p, h.pre, "") by {
      StandsEmpty(text, q);
    }
    Join(text, p, Cat(h.pre, ""), Print(v));
    Join(text, p, Cat(Cat(h.pre, ""), Print(v)), h.post);
  }

  lemma AcceptedSeparator(text: string, p: nat, q: nat)
    requires p <= |text| && Skip(text, p, PythonSpace) == q
    requires Read(text, p, AfterValue, None).error.None?
    ensures q < |text| && text[q] in ",]"
  {
    hide Skip, Scan, Finish;
  }

  /** Whatever is accepted is the text of a well-formed document with the objects returned. */
  lemma AcceptedIsDocument(text: string) returns (d: Document)
    requires ReadArray(text, None).error.None?
    ensures WellFormedDocument(d) && PrintDocument(d) == text
    ensures Objects(d.items) == ReadArray(text, None).records
  {
    hide Stands, Cat, AllIn, Skip, Scan, Finish, WellFormedItems, Objects, Sub, PrintMembers;
    var q := Skip(text, 0, PythonSpace);
    var gap, items, trail := AcceptedItems(text, q + 1, First);
    d := Document(Sub(text, 0, q), gap, items, trail);
    Join(text, 0, d.lead, "[") by {
      StandsOne(text, q);
    }
    Join(text, 0, Cat(d.lead, "["), Body(d));
    Join(text, 0, Cat(Cat(d.lead, "["), Body(d)), "]") by {
      StandsOne(text, q + 1 + |Body(d)|);
    }
    Join(text, 0, Cat(Cat(Cat(d.lead, "["), Body(d)), "]"), d.trail);
    StandsWhole(text, PrintDocument(d));
  }

  lemma StandsWhole(text: string, t: string)
    requires Stands(text, 0, t) && |t| == |text|
    ensures t == text
  {
  }

  /**
   * The reader accepts `text` and returns `objects` exactly when `text` is the text of a
   * well-formed array of those objects.
   */
  lemma AcceptsExactlyDocuments(text: string, objects: seq<Value>)
    ensures ReadArray(text, None) == Outcome(objects, None)
       <==> exists d :: WellFormedDocument(d) && PrintDocument(d) == text && Objects(d.items) == objects
  {
    hide ReadArray, WellFormedDocument, PrintDocument, Objects;
    if ReadArray(text, None) == Outcome(objects, None) {
      var d := AcceptedIsDocument(text);
    }
    if d :| WellFormedDocument(d) && PrintDocument(d) == text && Objects(d.items) == objects {
      ReadsDocument(d);
    }
  }

  // ---------------------------------------------------------------- limits

  /**
   * With a limit the reader stops, without an error, as soon as it has that many records;
   * a text with fewer records is read as without a limit.
   */
  function Truncate(all: Outcome, n: nat): Outcome {
    if |all.records| >= n then Outcome(all.records[..n], None) else all
  }

  lemma {:induction false} ReadWithQuota(text: string, p: nat, phase: Phase, n: nat)
    requires p <= |text| && n > 0
    ensures Read(text, p, phase, Some(n)) == Truncate(Read(text, p, phase, None), n)
    decreases |text| - p
  {
    hide Skip, Scan, Finish, Truncate, IsObject;
    TruncateNone(Truncated, n);
    var q := Skip(text, p, PythonSpace);
    if q < |text| {
      TruncateNone(NotAnArray, n);
      TruncateNone(ExpectedSeparator, n);
      TruncateNone(TrailingComma, n);
      TruncateNone(InvalidValue, n);
      TruncateNone(NotAnObject, n);
      TruncateFinish(text, q + 1, n);
      if phase == Start {
        ReadWithQuota(text, q + 1, First, n);
      } else if phase == AfterValue {
        ReadWithQuota(text, q + 1, AfterComma, n);
      } else if text[q] != ']' && Scan(text, q).Some? {
        var (v, e) := Scan(text, q).value;
        var rest := Read(text, e, AfterValue, None);
        TruncateCons(v, rest, n);
        if n > 1 {
          ReadWithQuota(text, e, AfterValue, n - 1);
        }
      }
    }
  }

  lemma TruncateNone(e: Error, n: nat)
    requires n > 0
    ensures Truncate(Failed(e), n) == Failed(e)
  {
  }

  lemma TruncateFinish(text: string, p: nat, n: nat)
    requires p <= |text| && n > 0
    ensures Truncate(Finish(text, p), n) == Finish(text, p)
  {
  }

  lemma TruncateCons(v: Value, rest: Outcome, n: nat)
    requires n > 0
    ensures var cut := if n == 1 then Outcome([], None) else Truncate(rest, n - 1);
            Truncate(Outcome([v] + rest.records, rest.error), n) == Outcome([v] + cut.records, cut.error)
  {
    if |rest.records| + 1 >= n {
      assert ([v] + rest.records)[..n] == [v] + rest.records[..n - 1];
    }
  }

  lemma LimitTruncates(text: string, n: nat)
    requires n > 0
    ensures ReadArray(text, Some(n)) == Truncate(ReadArray(text, None), n)
  {
    ReadWithQuota(text, 0, Start, n);
  }

  // ---------------------------------------------------------------- documents of RFC 8259

  /** White space as RFC 8259, section 2, has it: space, tab, line feed, carriage return. */
  predicate RfcSpaces(t: string) { forall i :: 0 <= i < |t| ==> t[i] in " \t\n\r" }

  /** An array of objects with the white space of RFC 8259 around its brackets, commas and objects. */
  predicate RfcArray(d: Document) {
    RfcSpaces(d.lead) && RfcSpaces(d.gap) && RfcSpaces(d.trail) && RfcItems(d.items)
  }

  predicate RfcItems(items: Members) {
    match items
    case Nil => true
    case Cons(h, tail) =>
      && RfcSpaces(h.pre) && RfcSpaces(h.post) && h.key == None
      && h.value.Compound? && h.value.isObject && WellFormed(h.value) && RfcItems(tail)
  }

  lemma SpacesAreSpaces(t: string)
    requires RfcSpaces(t)
    ensures AllIn(t, PythonSpace)
  {
    forall i | 0 <= i < |t|
      ensures Member(t[i], PythonSpace)
    {
      ClassesAre(t[i]);
    }
  }

  lemma {:induction false} RfcItemsAreItems(items: Members)
    requires RfcItems(items)
    ensures WellFormedItems(items)
  {
    hide WellFormed, AllIn, RfcSpaces;
    if items.Cons? {
      SpacesAreSpaces(items.head.pre);
      SpacesAreSpaces(items.head.post);
      RfcItemsAreItems(items.tail);
    }
  }

  /** Every array of objects of RFC 8259 is read as the list of its objects, with the streaming reader too. */
  lemma ReadsRfcDocument(d: Document)
    requires RfcArray(d)
    ensures ReadArray(PrintDocument(d), None) == Outcome(Objects(d.items), None)
  {
    hide AllIn, RfcSpaces, RfcItems, WellFormedItems, ReadArray, PrintDocument, Objects;
    SpacesAreSpaces(d.lead);
    SpacesAreSpaces(d.gap);
    SpacesAreSpaces(d.trail);
    RfcItemsAreItems(d.items);
    ReadsDocument(d);
  }

  /** Whatever is read are objects, each in braces. */
  lemma {:induction false} ReadsObjects(items: Members, k: nat)
    requires WellFormedItems(items) && k < |Objects(items)|
    ensures var v := Objects(items)[k];
            && v.Compound? && v.isObject
            && |Print(v)| >= 2 && Print(v)[0] == '{' && Print(v)[|Print(v)| - 1] == '}'
  {
    hide PrintMembers, WellFormed, AllIn;
    if k > 0 {
      ReadsObjects(items.tail, k - 1);
    }
  }

  /** What a reader of the whole text, or of chunks, yields: only objects in braces. */
  lemma RecordsAreObjects(text: string, k: nat)
    requires ReadArray(text, None).error.None? && k < |ReadArray(text, None).records|
    ensures var v := ReadArray(text, None).records[k];
            && v.Compound? && v.isObject
            && |Print(v)| >= 2 && Print(v)[0] == '{' && Print(v)[|Print(v)| - 1] == '}'
  {
    hide WellFormedItems, PrintMembers, ReadArray, PrintDocument, Objects, Print;
    var d := AcceptedIsDocument(text);
    ReadsObjects(d.items, k);
  }
}
