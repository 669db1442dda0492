/**
 The selector grammar shared by every frontend: `/`-separated segments, an `@` label section,
 `&`-separated labels and `=` pairs, each field quoted where it needs to be. Parsing and canonical
 rendering are proved inverse on exactly the selectors the parser can produce.
 */
module SelectorGrammar {
  import opened Format
  import opened Ordering
  import opened Matching
  import opened Quoting

  // ---------------------------------------------------------------------------------------
  // The pieces both parsers share
  // ---------------------------------------------------------------------------------------

  /** The tuple path, and the raw labels when a label section is present. */
  function LabelSection(value: string): (string, Option<seq<string>>) {
    match SplitOnce(value, '@')
    case Some(halves) => (halves.0, Some(Split(halves.1, '&')))
    case None => (value, None)
  }

  function RawLabels(section: Option<seq<string>>): seq<string> {
    match section case Some(parts) => parts case None => []
  }

  function Segment(raw: string): Parsed<string> {
    match Decode(raw)
    case Err(reason) => Err(reason)
    case Ok(text) => if text == "" then Err(EmptySegment) else Ok(text)
  }

  function Segments(parts: seq<string>): Parsed<seq<string>> {
    if parts == [] then Ok([])
    else
      match Segment(parts[0])
      case Err(reason) => Err(reason)
      case Ok(segment) =>
        match Segments(parts[1..])
        case Err(reason) => Err(reason)
        case Ok(rest) => Ok([segment] + rest)
  }

  function TuplePath(path: string): Parsed<seq<string>> {
    if path == "" then Err(EmptySelector) else Segments(Split(path, '/'))
  }

  /** A partly finished list, completed by the parse of what is left. */
  function Prefixed<T>(done: seq<T>, rest: Parsed<seq<T>>): Parsed<seq<T>> {
    match rest case Ok(more) => Ok(done + more) case Err(reason) => Err(reason)
  }

  lemma PrefixedNothing<T>(rest: Parsed<seq<T>>)
    ensures Prefixed([], rest) == rest
  {
    if rest.Ok? { assert [] + rest.value == rest.value; }
  }

  lemma SegmentsStep(parts: seq<string>, raws: seq<string>, i: nat)
    requires i < |raws|
    ensures Prefixed(parts, Segments(raws[i..])) ==
            match Segment(raws[i])
            case Err(reason) => Err(reason)
            case Ok(segment) => Prefixed(parts + [segment], Segments(raws[i + 1..]))
  {
    assert raws[i..][0] == raws[i] && raws[i..][1..] == raws[i + 1..];
    if Segment(raws[i]).Ok? && Segments(raws[i + 1..]).Ok? {
      ConcatAssociative(parts, [Segment(raws[i]).value], Segments(raws[i + 1..]).value);
    }
  }

  method ParseTuplePath(path: string) returns (tuple: Parsed<seq<string>>)
    ensures tuple == TuplePath(path)
  {
    if path == "" {
      return Err(EmptySelector);
    }
    var raws := SplitUnquoted(path, '/');
    var parts: seq<string> := [];
    assert raws[0..] == raws;
    PrefixedNothing(Segments(raws));
    for i := 0 to |raws|
      invariant TuplePath(path) == Prefixed(parts, Segments(raws[i..]))
    {
      SegmentsStep(parts, raws, i);
      var segment := DecodeField(raws[i]);
      if segment.Err? {
        return Err(segment.reason);
      }
      if segment.value == "" {
        return Err(EmptySegment);
      }
      parts := parts + [segment.value];
    }
    assert raws[|raws|..] == [] && parts + [] == parts;
    tuple := Ok(parts);
  }

  // ---------------------------------------------------------------------------------------
  // Concrete selectors
  // ---------------------------------------------------------------------------------------

  function Pair(raw: string): Parsed<SecretLabel> {
    match SplitOnce(raw, '=')
    case None => Err(NotKeyValue)
    case Some(halves) =>
      match Decode(halves.0)
      case Err(reason) => Err(reason)
      case Ok(key) =>
        match Decode(halves.1)
        case Err(reason) => Err(reason)
        case Ok(text) =>
          if key == "" || text == "" then Err(EmptyLabelPart) else Ok(SecretLabel(key, text))
  }

  function Pairs(raws: seq<string>): Parsed<seq<SecretLabel>> {
    if raws == [] then Ok([])
    else
      match Pair(raws[0])
      case Err(reason) => Err(reason)
      case Ok(entry) =>
        match Pairs(raws[1..])
        case Err(reason) => Err(reason)
        case Ok(rest) => Ok([entry] + rest)
  }

  /** The derived order on labels: key, then value. */
  predicate Before(a: SecretLabel, b: SecretLabel) {
    Less(a.key, b.key) || (a.key == b.key && Less(a.value, b.value))
  }

  function Insert(entry: SecretLabel, labels: seq<SecretLabel>): seq<SecretLabel> {
    if labels == [] || !Before(labels[0], entry) then [entry] + labels
    else [labels[0]] + Insert(entry, labels[1..])
  }

  /** `labels.sort()`: the sorted arrangement of the same labels. */
  function Sorted(labels: seq<SecretLabel>): seq<SecretLabel> {
    if labels == [] then [] else Insert(labels[0], Sorted(labels[1..]))
  }

  predicate AdjacentRepeat(labels: seq<SecretLabel>) {
    exists i :: 0 <= i < |labels| - 1 && labels[i].key == labels[i + 1].key
  }

  function Selector(value: string): Parsed<SecretSelector> {
    var section := LabelSection(value);
    match TuplePath(section.0)
    case Err(reason) => Err(reason)
    case Ok(tuple) =>
      match Pairs(RawLabels(section.1))
      case Err(reason) => Err(reason)
      case Ok(labels) =>
        if AdjacentRepeat(Sorted(labels)) then Err(RepeatedKey)
        else Ok(SecretSelector(tuple, Sorted(labels)))
  }

  method SplitLabelSection(value: string) returns (path: string, raws: Option<seq<string>>)
    ensures (path, raws) == LabelSection(value)
  {
    var halves := SplitOnceUnquoted(value, '@');
    if halves.None? {
      return value, None;
    }
    var parts := SplitUnquoted(halves.value.1, '&');
    return halves.value.0, Some(parts);
  }

  lemma PairsStep(labels: seq<SecretLabel>, raws: seq<string>, i: nat)
    requires i < |raws|
    ensures Prefixed(labels, Pairs(raws[i..])) ==
            match Pair(raws[i])
            case Err(reason) => Err(reason)
            case Ok(entry) => Prefixed(labels + [entry], Pairs(raws[i + 1..]))
  {
    assert raws[i..][0] == raws[i] && raws[i..][1..] == raws[i + 1..];
    if Pair(raws[i]).Ok? && Pairs(raws[i + 1..]).Ok? {
      ConcatAssociative(labels, [Pair(raws[i]).value], Pairs(raws[i + 1..]).value);
    }
  }

  method ParsePairs(raws: seq<string>) returns (parsed: Parsed<seq<SecretLabel>>)
    ensures parsed == Pairs(raws)
  {
    var labels: seq<SecretLabel> := [];
    assert raws[0..] == raws;
    PrefixedNothing(Pairs(raws));
    for i := 0 to |raws|
      invariant Pairs(raws) == Prefixed(labels, Pairs(raws[i..]))
    {
      PairsStep(labels, raws, i);
      var halves := SplitOnceUnquoted(raws[i], '=');
      if halves.None? {
        return Err(NotKeyValue);
      }
      var key := DecodeField(halves.value.0);
      if key.Err? {
        return Err(key.reason);
      }
      var text := DecodeField(halves.value.1);
      if text.Err? {
        return Err(text.reason);
      }
      if key.value == "" || text.value == "" {
        return Err(EmptyLabelPart);
      }
      labels := labels + [SecretLabel(key.value, text.value)];
    }
    assert raws[|raws|..] == [] && labels + [] == labels;
    parsed := Ok(labels);
  }

  method ParseSecretSelector(value: string) returns (selector: Parsed<SecretSelector>)
    ensures selector == Selector(value)
  {
    var path, raws := SplitLabelSection(value);
    var tuple := ParseTuplePath(path);
    if tuple.Err? {
      return Err(tuple.reason);
    }
    var parsed := ParsePairs(RawLabels(raws));
    if parsed.Err? {
      return Err(parsed.reason);
    }
    var labels := Sorted(parsed.value);
    if exists i :: 0 <= i < |labels| - 1 && labels[i].key == labels[i + 1].key {
      return Err(RepeatedKey);
    }
    selector := Ok(SecretSelector(tuple.value, labels));
  }

  // ---------------------------------------------------------------------------------------
  // Rendering
  // ---------------------------------------------------------------------------------------

  function Escapes(parts: seq<string>): (texts: seq<string>)
    ensures |texts| == |parts|
  {
    if parts == [] then [] else [Escape(parts[0])] + Escapes(parts[1..])
  }

  function RenderPair(entry: SecretLabel): string {
    Escape(entry.key) + "=" + Escape(entry.value)
  }

  function RenderPairs(labels: seq<SecretLabel>): (texts: seq<string>)
    ensures |texts| == |labels|
  {
    if labels == [] then [] else [RenderPair(labels[0])] + RenderPairs(labels[1..])
  }

  function EscapeTuple(parts: seq<string>): string {
    Join(Escapes(parts), '/')
  }

  function Render(selector: SecretSelector): string {
    if selector.labels == [] then EscapeTuple(selector.tuple)
    else EscapeTuple(selector.tuple) + "@" + Join(RenderPairs(selector.labels), '&')
  }

  /** The label loop as it runs: the first label opens with `@`, the others with `&`. */
  function RenderTail(labels: seq<SecretLabel>): string {
    if labels == [] then "" else "&" + RenderPair(labels[0]) + RenderTail(labels[1..])
  }

  lemma {:induction false} RenderTailJoins(entry: SecretLabel, labels: seq<SecretLabel>)
    ensures RenderPair(entry) + RenderTail(labels) == Join(RenderPairs([entry] + labels), '&')
    decreases |labels|
  {
    assert ([entry] + labels)[1..] == labels;
    if labels == [] {
      assert RenderPair(entry) + "" == RenderPair(entry);
    } else {
      RenderTailJoins(labels[0], labels[1..]);
      assert [labels[0]] + labels[1..] == labels;
      ConcatAssociative("&", RenderPair(labels[0]), RenderTail(labels[1..]));
      ConcatAssociative(RenderPair(entry), "&", Join(RenderPairs(labels), '&'));
    }
  }

  /** What the label loop has still to write at `index`. */
  function RenderRest(labels: seq<SecretLabel>, index: nat): string
    requires index <= |labels|
  {
    if index == 0 && labels != [] then "@" + Join(RenderPairs(labels), '&') else RenderTail(labels[index..])
  }

  lemma RenderRestStep(labels: seq<SecretLabel>, index: nat)
    requires index < |labels|
    ensures RenderRest(labels, index)
         == ((if index == 0 then "@" else "&") + RenderPair(labels[index])) + RenderRest(labels, index + 1)
  {
    if index == 0 {
      RenderTailJoins(labels[0], labels[1..]);
      assert [labels[0]] + labels[1..] == labels;
      ConcatAssociative("@", RenderPair(labels[0]), RenderTail(labels[1..]));
    } else {
      assert labels[index..][0] == labels[index] && labels[index..][1..] == labels[index + 1..];
    }
  }

  method SelectorString(selector: SecretSelector) returns (rendered: string)
    ensures rendered == Render(selector)
  {
    rendered := EscapeTuple(selector.tuple);
    var labels := selector.labels;
    assert labels == [] ==> rendered + RenderRest(labels, 0) == rendered;
    ConcatAssociative(rendered, "@", Join(RenderPairs(labels), '&'));
    for index := 0 to |labels|
      invariant Render(selector) == rendered + RenderRest(labels, index)
    {
      var key := EscapeSegment(labels[index].key);
      var text := EscapeSegment(labels[index].value);
      var piece := (if index == 0 then "@" else "&") + (key + "=" + text);
      RenderRestStep(labels, index);
      ConcatAssociative(rendered, piece, RenderRest(labels, index + 1));
      rendered := rendered + piece;
    }
    assert labels[|labels|..] == [] && rendered + "" == rendered;
  }

  // ---------------------------------------------------------------------------------------
  // Sorting
  // ---------------------------------------------------------------------------------------

  predicate Ascending(labels: seq<SecretLabel>) {
    forall i, j :: 0 <= i < j < |labels| ==> !Before(labels[j], labels[i])
  }

  lemma BeforeIsTransitive(a: SecretLabel, b: SecretLabel, c: SecretLabel)
    requires !Before(b, a) && !Before(c, b)
    ensures !Before(c, a)
  {
    if Before(c, a) {
      LessIsTotal(a.key, b.key);
      LessIsTotal(b.key, c.key);
      LessIsTotal(a.value, b.value);
      LessIsTotal(b.value, c.value);
      LessIsIrreflexive(a.key);
      LessIsIrreflexive(a.value);
      if Less(a.key, b.key) && Less(b.key, c.key) { LessIsTransitive(a.key, b.key, c.key); }
      if Less(c.key, a.key) && Less(a.key, c.key) { LessIsTransitive(c.key, a.key, c.key); LessIsIrreflexive(c.key); }
      if Less(a.value, b.value) && Less(b.value, c.value) { LessIsTransitive(a.value, b.value, c.value); }
      if Less(c.value, a.value) && Less(a.value, c.value) {
        LessIsTransitive(c.value, a.value, c.value);
        LessIsIrreflexive(c.value);
      }
    }
  }

  lemma {:induction false} InsertKeepsMembers(entry: SecretLabel, labels: seq<SecretLabel>)
    ensures multiset(Insert(entry, labels)) == multiset(labels) + multiset{entry}
  {
    if labels == [] {
    } else {
      assert labels == [labels[0]] + labels[1..];
      InsertKeepsMembers(entry, labels[1..]);
    }
  }

  lemma BeforeIsAsymmetric(a: SecretLabel, b: SecretLabel)
    requires Before(a, b)
    ensures !Before(b, a)
  {
    LessIsIrreflexive(a.key);
    LessIsIrreflexive(a.value);
    if Less(a.key, b.key) && Less(b.key, a.key) { LessIsTransitive(a.key, b.key, a.key); }
    if Less(a.value, b.value) && Less(b.value, a.value) { LessIsTransitive(a.value, b.value, a.value); }
  }

  lemma {:induction false} InsertAscending(entry: SecretLabel, labels: seq<SecretLabel>)
    requires Ascending(labels)
    ensures Ascending(Insert(entry, labels))
  {
    if labels == [] {
    } else {
      if Before(labels[0], entry) {
        InsertAscending(entry, labels[1..]);
        var rest := Insert(entry, labels[1..]);
        InsertKeepsMembers(entry, labels[1..]);
        BeforeIsAsymmetric(labels[0], entry);
        forall j | 0 <= j < |rest| ensures !Before(rest[j], labels[0]) {
          assert rest[j] in multiset(rest);
        }
      } else {
        forall j | 0 <= j < |labels| ensures !Before(labels[j], entry) {
          if j > 0 { BeforeIsTransitive(entry, labels[0], labels[j]); }
        }
      }
    }
  }

  lemma {:induction false} SortedIsAscending(labels: seq<SecretLabel>)
    ensures Ascending(Sorted(labels)) && multiset(Sorted(labels)) == multiset(labels)
  {
    if labels == [] {
    } else {
      SortedIsAscending(labels[1..]);
      InsertAscending(labels[0], Sorted(labels[1..]));
      InsertKeepsMembers(labels[0], Sorted(labels[1..]));
      assert labels == [labels[0]] + labels[1..];
    }
  }

  /** Ascending without an adjacent repeat is strictly ascending by key. */
  lemma {:induction false} NoRepeatIsStrict(labels: seq<SecretLabel>, i: nat, j: nat)
    requires Ascending(labels) && !AdjacentRepeat(labels) && i < j < |labels|
    ensures Less(labels[i].key, labels[j].key)
    decreases j
  {
    assert !Before(labels[j], labels[j - 1]) && labels[j - 1].key != labels[j].key;
    LessIsTotal(labels[j - 1].key, labels[j].key);
    if i < j - 1 {
      NoRepeatIsStrict(labels, i, j - 1);
      LessIsTransitive(labels[i].key, labels[j - 1].key, labels[j].key);
    }
  }

  lemma {:induction false} SortedOfStrict(labels: seq<SecretLabel>)
    requires SecretLabelsSorted(labels)
    ensures Sorted(labels) == labels && !AdjacentRepeat(labels)
  {
    forall i | 0 <= i < |labels| - 1 ensures labels[i].key != labels[i + 1].key {
      LessIsIrreflexive(labels[i].key);
    }
    if labels == [] {
    } else {
      SortedOfStrict(labels[1..]);
      if |labels| > 1 {
        assert Before(labels[0], labels[1]);
        BeforeIsAsymmetric(labels[0], labels[1]);
        assert labels[1..][0] == labels[1];
      }
      assert [labels[0]] + labels[1..] == labels;
    }
  }
}
