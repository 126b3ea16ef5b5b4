/** Replacing the generated section of a document between its two markers. */
module DocSection {
  import opened Strings

  datatype Markers = Markers(begin: string, end: string)

  const EVENTS := Markers("<!-- events:begin -->", "<!-- events:end -->")
  const METRICS := Markers("<!-- metrics:begin -->", "<!-- metrics:end -->")

  datatype Replaced = Document(text: string) | NoBegin | NoEnd | EndFirst

  predicate OccursAt(s: string, p: string, i: nat) {
    i + |p| <= |s| && s[i..i + |p|] == p
  }

  /** strings.Index, from position i on. */
  function IndexFrom(s: string, p: string, i: nat): (r: Option<nat>)
    requires i <= |s|
    ensures r.Some? ==> i <= r.value && OccursAt(s, p, r.value)
    ensures r.Some? ==> forall j: nat :: i <= j < r.value ==> !OccursAt(s, p, j)
    ensures r.None? ==> forall j: nat :: i <= j ==> !OccursAt(s, p, j)
    decreases |s| - i
  {
    if OccursAt(s, p, i) then Some(i)
    else if i == |s| then None
    else IndexFrom(s, p, i + 1)
  }

  function Index(s: string, p: string): Option<nat> {
    IndexFrom(s, p, 0)
  }

  ghost predicate Contains(s: string, p: string) {
    exists i: nat :: OccursAt(s, p, i)
  }

  function ReplaceSection(m: Markers, doc: string, table: string): Replaced {
    match (Index(doc, m.begin), Index(doc, m.end))
    case (None, _) => NoBegin
    case (_, None) => NoEnd
    case (Some(b), Some(e)) =>
      if e < b then EndFirst
      else Document(doc[..b + |m.begin|] + "\n" + table + doc[e..])
  }

  /** What both pairs of markers share: a '<' only at the front, and no line break. */
  ghost predicate MarkerShape(p: string) {
    && |p| > 1 && p[0] == '<' && '\n' !in p
    && forall i :: 0 < i < |p| ==> p[i] != '<'
  }

  ghost predicate GoodMarkers(m: Markers) {
    MarkerShape(m.begin) && MarkerShape(m.end) && !(m.end <= m.begin) && !(m.begin <= m.end)
  }

  /** The four markers of the two generators. */
  lemma BeginMarkersAreGood()
    ensures MarkerShape(EVENTS.begin) && MarkerShape(METRICS.begin)
  {
  }

  lemma EndMarkersAreGood()
    ensures MarkerShape(EVENTS.end) && MarkerShape(METRICS.end)
  {
  }

  lemma ProgramMarkersAreGood()
    ensures GoodMarkers(EVENTS) && GoodMarkers(METRICS)
  {
    BeginMarkersAreGood();
    EndMarkersAreGood();
    assert EVENTS.begin[12] != EVENTS.end[12];
    assert METRICS.begin[13] != METRICS.end[13];
  }

  /** The first occurrence is what Index finds. */
  lemma IndexIs(s: string, p: string, i: nat)
    requires OccursAt(s, p, i) && forall j: nat :: j < i ==> !OccursAt(s, p, j)
    ensures Index(s, p) == Some(i)
  {
  }

  /** An occurrence, character by character. */
  lemma CharsOf(s: string, p: string, i: nat)
    requires OccursAt(s, p, i)
    ensures forall t :: i <= t < i + |p| ==> s[t] == p[t - i]
  {
    forall t | i <= t < i + |p|
      ensures s[t] == p[t - i]
    {
      assert s[t] == s[i..i + |p|][t - i];
    }
  }

  /** Two markers of this shape that start at one place are prefixes of each other. */
  lemma SameStart(s: string, p: string, q: string, i: nat)
    requires OccursAt(s, p, i) && OccursAt(s, q, i)
    ensures p <= q || q <= p
  {
    CharsOf(s, p, i);
    CharsOf(s, q, i);
    forall k | 0 <= k < |p| && k < |q|
      ensures p[k] == q[k]
    {
      assert s[i + k] == p[i + k - i] && s[i + k] == q[i + k - i];
    }
  }

  /** Two different markers never overlap. */
  lemma MarkersDoNotOverlap(s: string, m: Markers, i: nat, j: nat)
    requires GoodMarkers(m) && OccursAt(s, m.begin, i) && OccursAt(s, m.end, j) && i <= j
    ensures i + |m.begin| <= j
  {
    CharsOf(s, m.begin, i);
    CharsOf(s, m.end, j);
    if i == j {
      SameStart(s, m.begin, m.end, i);
    }
  }

  /** A marker's occurrences in a text that keeps its front are those of the original. */
  lemma FrontKeepsIndex(a: string, b: string, p: string, n: nat)
    requires n <= |a| && n <= |b| && a[..n] == b[..n]
    requires Index(a, p).Some? && Index(a, p).value + |p| <= n
    ensures Index(b, p) == Index(a, p)
  {
    var i := Index(a, p).value;
    assert b[i..i + |p|] == b[..n][i..i + |p|] == a[..n][i..i + |p|] == a[i..i + |p|];
    assert OccursAt(b, p, i);
    forall j: nat | j < i
      ensures !OccursAt(b, p, j)
    {
      if OccursAt(b, p, j) {
        assert a[j..j + |p|] == a[..n][j..j + |p|] == b[..n][j..j + |p|] == b[j..j + |p|];
        assert OccursAt(a, p, j);
      }
    }
  }

  /** A marker that starts in the table and runs past it would start inside the marker that follows. */
  lemma NoStraddle(front: string, table: string, rest: string, p: string, j: nat)
    requires MarkerShape(p) && p <= rest
    requires OccursAt(front + "\n" + table + rest, p, j)
    requires |front| < j < |front| + 1 + |table|
    ensures OccursAt(table, p, j - |front| - 1)
  {
    var s := front + "\n" + table + rest;
    var i := j - |front| - 1;
    CharsOf(s, p, j);
    assert s[|front| + 1 + |table|] == rest[0] == '<';
    assert i + |p| <= |table| ==> table[i..i + |p|] == s[j..j + |p|];
  }

  /** The pieces of a replaced document: up to and including the begin marker, and from the end marker on. */
  function Front(m: Markers, doc: string): string
    requires Index(doc, m.begin).Some?
  {
    doc[..Index(doc, m.begin).value + |m.begin|]
  }

  function Rest(m: Markers, doc: string): string
    requires Index(doc, m.end).Some?
  {
    doc[Index(doc, m.end).value..]
  }

  lemma Pieces(m: Markers, doc: string, table: string)
    requires GoodMarkers(m) && ReplaceSection(m, doc, table).Document?
    ensures ReplaceSection(m, doc, table).text == Front(m, doc) + "\n" + table + Rest(m, doc)
    ensures |Front(m, doc)| <= Index(doc, m.end).value && Front(m, doc) <= doc
    ensures m.end <= Rest(m, doc)
  {
    var b, e := Index(doc, m.begin).value, Index(doc, m.end).value;
    if b <= e {
      MarkersDoNotOverlap(doc, m, b, e);
    }
    assert Rest(m, doc)[..|m.end|] == doc[e..e + |m.end|];
  }

  lemma Regroup(front: string, table: string, rest: string)
    ensures front + "\n" + table + rest == front + ("\n" + table + rest)
    ensures front + "\n" + table + rest == (front + "\n") + (table + rest)
    ensures front + "\n" <= front + "\n" + table + rest
  {
  }

  /** Where the begin marker of a written document is. */
  lemma BeginAfter(m: Markers, doc: string, front: string, tail: string)
    requires Index(doc, m.begin).Some? && front == Front(m, doc)
    ensures Index(front + tail, m.begin) == Index(doc, m.begin)
  {
    assert (front + tail)[..|front|] == front == doc[..|front|];
    FrontKeepsIndex(doc, front + tail, m.begin, |front|);
  }

  lemma FrontIsPrefix(m: Markers, doc: string)
    requires Index(doc, m.begin).Some?
    ensures Front(m, doc) <= doc && |Front(m, doc)| == Index(doc, m.begin).value + |m.begin|
  {
  }

  /** No occurrence of p in doc starts before position e. */
  ghost predicate NoneBefore(doc: string, p: string, e: nat) {
    forall j: nat :: j < e ==> !OccursAt(doc, p, j)
  }

  /** Where in front of a following marker the table ends: at that marker's first copy in it, or at its end. */
  function Cut(table: string, p: string): (at: nat)
    ensures at <= |table|
    ensures p != "" ==> (at == |table| <==> Index(table, p).None?)
  {
    if Index(table, p).Some? then Index(table, p).value else |table|
  }

  lemma IndexIsFirst(s: string, p: string)
    requires Index(s, p).Some?
    ensures NoneBefore(s, p, Index(s, p).value)
  {
  }

  /** Where its end marker is. */
  lemma EndAfter(doc: string, p: string, e: nat, front: string, table: string, rest: string, out: string)
    requires out == front + "\n" + table + rest
    requires MarkerShape(p) && NoneBefore(doc, p, e) && front <= doc && |front| <= e && p <= rest
    ensures Index(out, p) == Some(|front| + 1 + Cut(table, p))
  {
    Regroup(front, table, rest);
    NoneInFront(doc, p, e, front, out);
    EndIndexAfter(p, front, table, rest);
  }

  lemma BeginStays(m: Markers, doc: string, table: string)
    requires GoodMarkers(m) && ReplaceSection(m, doc, table).Document?
    ensures Index(ReplaceSection(m, doc, table).text, m.begin) == Index(doc, m.begin)
  {
    Pieces(m, doc, table);
    Regroup(Front(m, doc), table, Rest(m, doc));
    BeginAfter(m, doc, Front(m, doc), "\n" + table + Rest(m, doc));
  }

  lemma EndMoves(m: Markers, doc: string, table: string)
    requires GoodMarkers(m) && ReplaceSection(m, doc, table).Document?
    ensures Index(ReplaceSection(m, doc, table).text, m.end) == Some(|Front(m, doc)| + 1 + Cut(table, m.end))
  {
    Pieces(m, doc, table);
    IndexIsFirst(doc, m.end);
    EndAfter(
      doc, m.end, Index(doc, m.end).value, Front(m, doc), table, Rest(m, doc), ReplaceSection(m, doc, table).text);
  }

  /** Where the two markers of a replaced document are. */
  lemma MarkersAfter(m: Markers, doc: string, table: string)
    requires GoodMarkers(m) && ReplaceSection(m, doc, table).Document?
    ensures var n, out := |Front(m, doc)|, ReplaceSection(m, doc, table).text;
      && Index(out, m.begin) == Index(doc, m.begin)
      && Index(out, m.end) == Some(n + 1 + Cut(table, m.end))
  {
    BeginStays(m, doc, table);
    EndMoves(m, doc, table);
  }

  /** The end marker does not start in front of the table. */
  lemma NoneInFront(doc: string, p: string, e: nat, front: string, out: string)
    requires MarkerShape(p) && NoneBefore(doc, p, e) && front <= doc && |front| <= e && front + "\n" <= out
    ensures NoneBefore(out, p, |front| + 1)
  {
    forall j: nat | j < |front| + 1
      ensures !OccursAt(out, p, j)
    {
      NotAt(doc, p, e, front, out, j);
    }
  }

  lemma NotAt(doc: string, p: string, e: nat, front: string, out: string, j: nat)
    requires MarkerShape(p) && NoneBefore(doc, p, e) && front <= doc && |front| <= e && front + "\n" <= out
    requires j <= |front|
    ensures !OccursAt(out, p, j)
  {
    var line := front + "\n";
    assert out[|front|] == line[|front|] == '\n';
    if j + |p| <= |front| {
      assert forall t :: 0 <= t < |front| ==> out[t] == line[t] == doc[t];
      assert out[j..j + |p|] == doc[j..j + |p|];
      assert !OccursAt(doc, p, j);
    } else if j + |p| <= |out| {
      assert out[j..j + |p|][|front| - j] == '\n';
      assert p[|front| - j] != '\n';
    }
  }

  lemma EndIndexAfter(p: string, front: string, table: string, rest: string)
    requires MarkerShape(p) && p <= rest
    requires NoneBefore(front + "\n" + table + rest, p, |front| + 1)
    ensures Index(front + "\n" + table + rest, p) == Some(|front| + 1 + Cut(table, p))
  {
    var out := front + "\n" + table + rest;
    var n := |front| + 1;
    var at := if Index(table, p).Some? then Index(table, p).value else |table|;
    assert OccursAt(out, p, n + at) by {
      if Index(table, p).Some? {
        assert out[n + at..n + at + |p|] == table[at..at + |p|];
      } else {
        assert out[n + at..n + at + |p|] == rest[..|p|];
      }
    }
    forall j: nat | j < n + at
      ensures !OccursAt(out, p, j)
    {
      if n <= j && OccursAt(out, p, j) {
        NoStraddle(front, table, rest, p, j);
      }
    }
    IndexIs(out, p, n + at);
  }

  // ---- The laws ----

  /** The section a document holds between its markers. */
  function Section(m: Markers, doc: string): Option<string> {
    match (Index(doc, m.begin), Index(doc, m.end))
    case (Some(b), Some(e)) => if b + |m.begin| <= e then Some(doc[b + |m.begin|..e]) else None
    case _ => None
  }

  /** Text outside the markers, and the markers themselves, survive. */
  lemma OutsideSurvives(m: Markers, doc: string, table: string)
    requires GoodMarkers(m) && ReplaceSection(m, doc, table).Document?
    ensures var out, rest := ReplaceSection(m, doc, table).text, Rest(m, doc);
      Front(m, doc) <= out && |rest| <= |out| && out[|out| - |rest|..] == rest
  {
    Pieces(m, doc, table);
  }

  lemma SectionIs(m: Markers, doc: string, from: nat, to: nat)
    requires Index(doc, m.begin).Some? && Index(doc, m.begin).value + |m.begin| == from
    requires Index(doc, m.end) == Some(to) && from <= to
    ensures to <= |doc| && Section(m, doc) == Some(doc[from..to])
  {
  }

  /** Reading back what was written. */
  lemma PutGet(m: Markers, doc: string, table: string)
    requires GoodMarkers(m) && ReplaceSection(m, doc, table).Document?
    ensures Section(m, ReplaceSection(m, doc, table).text) == Some("\n" + table) <==> !Contains(table, m.end)
  {
    MarkersAfter(m, doc, table);
    IndexFindsContained(table, m.end);
    Pieces(m, doc, table);
    var front, out := Front(m, doc), ReplaceSection(m, doc, table).text;
    var at := Index(out, m.end).value;
    FrontIsPrefix(m, doc);
    SectionIs(m, out, |front|, at);
    ReadBack(front, table, Rest(m, doc), at);
  }

  /** What is read back up to a cut is the table exactly when the cut is at its end. */
  lemma ReadBack(front: string, table: string, rest: string, at: nat)
    requires |front| + 1 <= at <= |front| + 1 + |table|
    ensures (front + "\n" + table + rest)[|front|..at] == "\n" + table <==> at == |front| + 1 + |table|
  {
    var out := front + "\n" + table + rest;
    assert |out[|front|..at]| == at - |front|;
    assert out[|front|..|front| + 1 + |table|] == "\n" + table;
  }

  lemma IndexFindsContained(s: string, p: string)
    ensures Index(s, p).Some? <==> Contains(s, p)
  {
    if Index(s, p).Some? {
      assert OccursAt(s, p, Index(s, p).value);
    }
  }

  /** What a second write makes of a written document. */
  lemma SecondWrite(m: Markers, doc: string, first: string, second: string)
    requires GoodMarkers(m) && ReplaceSection(m, doc, first).Document?
    ensures var once := ReplaceSection(m, doc, first).text;
      && Index(once, m.end).Some? && |Front(m, doc)| <= Index(once, m.end).value <= |once|
      && ReplaceSection(m, once, second)
           == Document(once[..|Front(m, doc)|] + "\n" + second + once[Index(once, m.end).value..])
  {
    MarkersAfter(m, doc, first);
    FrontIsPrefix(m, doc);
    ReplaceIs(m, ReplaceSection(m, doc, first).text, second);
  }

  lemma ReplaceIs(m: Markers, doc: string, table: string)
    requires Index(doc, m.begin).Some? && Index(doc, m.end).Some? && Index(doc, m.begin).value <= Index(doc, m.end).value
    ensures Index(doc, m.begin).value + |m.begin| <= |doc|
    ensures ReplaceSection(m, doc, table) == Document(
      doc[..Index(doc, m.begin).value + |m.begin|] + "\n" + table + doc[Index(doc, m.end).value..])
  {
  }

  /** Writing twice is writing the second table, exactly when the first does not hold the end marker. */
  lemma PutPut(m: Markers, doc: string, first: string, second: string)
    requires GoodMarkers(m) && ReplaceSection(m, doc, first).Document?
    ensures ReplaceSection(m, ReplaceSection(m, doc, first).text, second) == ReplaceSection(m, doc, second)
      <==> !Contains(first, m.end)
  {
    SecondWrite(m, doc, first, second);
    MarkersAfter(m, doc, first);
    IndexFindsContained(first, m.end);
    Pieces(m, doc, first);
    Pieces(m, doc, second);
    var at := Index(ReplaceSection(m, doc, first).text, m.end).value;
    WrittenAgain(Front(m, doc), first, Rest(m, doc), second, at);
  }

  /** Cutting a written text at the first end marker leaves the old rest exactly when the cut is at its front. */
  lemma WrittenAgain(front: string, first: string, rest: string, second: string, at: nat)
    requires |front| + 1 <= at <= |front| + 1 + |first|
    ensures var once := front + "\n" + first + rest;
      once[..|front|] + "\n" + second + once[at..] == front + "\n" + second + rest
      <==> at == |front| + 1 + |first|
  {
    var once := front + "\n" + first + rest;
    assert once[..|front|] == front;
    var again := once[..|front|] + "\n" + second + once[at..];
    if at == |front| + 1 + |first| {
      assert once[at..] == rest;
    } else {
      assert |again| != |front + "\n" + second + rest|;
    }
  }

  /** A second run of the generator on its own output changes nothing. */
  lemma SecondRunChangesNothing(m: Markers, doc: string, table: string)
    requires GoodMarkers(m) && ReplaceSection(m, doc, table).Document?
    ensures ReplaceSection(m, ReplaceSection(m, doc, table).text, table) == ReplaceSection(m, doc, table)
      <==> !Contains(table, m.end)
  {
    PutPut(m, doc, table, table);
  }

  /** It fails exactly when a marker is missing or the first end marker precedes the first begin marker. */
  lemma FailsExactlyWithoutOrderedMarkers(m: Markers, doc: string, table: string)
    ensures ReplaceSection(m, doc, table) == NoBegin <==> !Contains(doc, m.begin)
    ensures ReplaceSection(m, doc, table) == NoEnd <==> Contains(doc, m.begin) && !Contains(doc, m.end)
    ensures ReplaceSection(m, doc, table) == EndFirst <==>
      exists e: nat :: OccursAt(doc, m.end, e) && Contains(doc, m.begin)
        && forall b: nat :: b <= e ==> !OccursAt(doc, m.begin, b)
  {
    IndexFindsContained(doc, m.begin);
    IndexFindsContained(doc, m.end);
  }
}
