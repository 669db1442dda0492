/**
 Selection queries: the same grammar widened to grant matchers. A query spelled like a concrete
 selector selects that secret, and every accepted query is a canonical keyspace selector.
 */
module SelectorQuery {
  import opened Format
  import opened Matching
  import opened Quoting
  import opened SelectorGrammar
  import opened SelectorRoundTrip

  function QueryTuple(path: string, labelled: bool): Parsed<TupleMatcher> {
    if path == "*" || path == "." || path == "/" then Ok(AnyTuple)
    else if path == "" && labelled then Ok(AnyTuple)
    else
      match TuplePath(path)
      case Err(reason) => Err(reason)
      case Ok(parts) => Ok(Prefix(parts))
  }

  function NamedLabel(key: string, matcher: LabelMatcher): Parsed<KeyspaceLabel> {
    if key == "" then Err(EmptyLabelKey) else Ok(KeyspaceLabel(key, matcher))
  }

  /** One raw label: `!key`, `key=value` or `key`, in that order of recognition. */
  function QueryLabel(raw: string): Parsed<KeyspaceLabel> {
    if raw != "" && raw[0] == '!' then
      match Decode(raw[1..])
      case Err(reason) => Err(reason)
      case Ok(key) => NamedLabel(key, Absent)
    else
      match SplitOnce(raw, '=')
      case Some(halves) =>
        (match Decode(halves.1)
         case Err(reason) => Err(reason)
         case Ok(text) =>
           if text == "" then Err(EmptyLabelValue)
           else
             match Decode(halves.0)
             case Err(reason) => Err(reason)
             case Ok(key) => NamedLabel(key, Equals(text)))
      case None =>
        match Decode(raw)
        case Err(reason) => Err(reason)
        case Ok(key) => NamedLabel(key, AnyValue)
  }

  predicate HasKey(labels: seq<KeyspaceLabel>, key: string) {
    exists i :: 0 <= i < |labels| && labels[i].key == key
  }

  /** Labels are taken in order; a key already taken is refused. */
  function QueryLabels(taken: seq<KeyspaceLabel>, raws: seq<string>): Parsed<seq<KeyspaceLabel>>
    decreases |raws|
  {
    if raws == [] then Ok(taken)
    else
      match QueryLabel(raws[0])
      case Err(reason) => Err(reason)
      case Ok(entry) =>
        if HasKey(taken, entry.key) then Err(RepeatedKey)
        else QueryLabels(taken + [entry], raws[1..])
  }

  function Query(value: string): Parsed<KeyspaceSelector> {
    var section := LabelSection(value);
    match QueryTuple(section.0, section.1.Some?)
    case Err(reason) => Err(reason)
    case Ok(tuple) =>
      match QueryLabels([], RawLabels(section.1))
      case Err(reason) => Err(reason)
      case Ok(labels) => Ok(KeyspaceSelector(tuple, labels))
  }

  method ParseQueryLabel(raw: string) returns (parsed: Parsed<KeyspaceLabel>)
    ensures parsed == QueryLabel(raw)
  {
    var key: string, matcher: LabelMatcher;
    if raw != "" && raw[0] == '!' {
      var name := DecodeField(raw[1..]);
      if name.Err? { return Err(name.reason); }
      key, matcher := name.value, Absent;
    } else {
      var halves := SplitOnceUnquoted(raw, '=');
      if halves.Some? {
        var text := DecodeField(halves.value.1);
        if text.Err? { return Err(text.reason); }
        if text.value == "" { return Err(EmptyLabelValue); }
        var name := DecodeField(halves.value.0);
        if name.Err? { return Err(name.reason); }
        key, matcher := name.value, Equals(text.value);
      } else {
        var name := DecodeField(raw);
        if name.Err? { return Err(name.reason); }
        key, matcher := name.value, AnyValue;
      }
    }
    if key == "" {
      return Err(EmptyLabelKey);
    }
    parsed := Ok(KeyspaceLabel(key, matcher));
  }

  method ParseSecretQuery(value: string) returns (query: Parsed<KeyspaceSelector>)
    ensures query == Query(value)
  {
    var path, section := SplitLabelSection(value);
    var tuple := AnyTuple;
    if path != "*" && path != "." && path != "/" && !(path == "" && section.Some?) {
      var parts := ParseTuplePath(path);
      if parts.Err? {
        return Err(parts.reason);
      }
      tuple := Prefix(parts.value);
    }
    var raws := RawLabels(section);
    var labels: seq<KeyspaceLabel> := [];
    assert raws[0..] == raws;
    for i := 0 to |raws|
      invariant QueryLabels([], raws) == QueryLabels(labels, raws[i..])
    {
      assert raws[i..][0] == raws[i] && raws[i..][1..] == raws[i + 1..];
      var entry := ParseQueryLabel(raws[i]);
      if entry.Err? {
        return Err(entry.reason);
      }
      if exists j :: 0 <= j < |labels| && labels[j].key == entry.value.key {
        return Err(RepeatedKey);
      }
      labels := labels + [entry.value];
    }
    assert raws[|raws|..] == [];
    query := Ok(KeyspaceSelector(tuple, labels));
  }

  // ---------------------------------------------------------------------------------------
  // A selector's own spelling, read as a query
  // ---------------------------------------------------------------------------------------

  function EqualityLabels(labels: seq<SecretLabel>): (matchers: seq<KeyspaceLabel>)
    ensures |matchers| == |labels|
    ensures forall i :: 0 <= i < |labels| ==> matchers[i] == KeyspaceLabel(labels[i].key, Equals(labels[i].value))
  {
    seq(|labels|, i requires 0 <= i < |labels| => KeyspaceLabel(labels[i].key, Equals(labels[i].value)))
  }

  /** The two one-segment tuples whose bare spelling means the whole vault. */
  predicate SpelledLikeWildcard(tuple: seq<string>) {
    tuple == ["*"] || tuple == ["."]
  }

  lemma WildcardSpellings()
    ensures EscapeTuple(["*"]) == "*" && EscapeTuple(["."]) == "."
    ensures TuplePath("*") == Ok(["*"]) && TuplePath(".") == Ok(["."]) && TuplePath("/").Err?
  {
    assert Plain("*") && Plain(".");
    assert Escapes(["*"]) == ["*"] && Escapes(["."]) == ["."];
    TuplePathOfRendered(["*"]);
    TuplePathOfRendered(["."]);
    assert Segment("") == Err(EmptySegment);
    SplitAcross(CLEAN, "", '/', "");
    assert "" + ['/'] + "" == "/";
    assert Split("/", '/')[0] == "";
  }

  lemma QueryTupleOfRendered(tuple: seq<string>, labelled: bool)
    requires tuple != [] && forall i :: 0 <= i < |tuple| ==> tuple[i] != ""
    ensures QueryTuple(EscapeTuple(tuple), labelled)
         == Ok(if SpelledLikeWildcard(tuple) then AnyTuple else Prefix(tuple))
  {
    WildcardSpellings();
    TuplePathOfRendered(tuple);
  }

  lemma QueryLabelOfRendered(entry: SecretLabel)
    requires entry.key != "" && entry.value != ""
    ensures QueryLabel(RenderPair(entry)) == Ok(KeyspaceLabel(entry.key, Equals(entry.value)))
  {
    RenderPairClosed(entry);
    EscapeRoundTrip(entry.key, '=');
    EscapeRoundTrip(entry.value, '=');
  }

  lemma {:induction false} QueryLabelsOfRendered(labels: seq<SecretLabel>, n: nat)
    requires n <= |labels| && SecretLabelsSorted(labels)
    requires forall i :: 0 <= i < |labels| ==> labels[i].key != "" && labels[i].value != ""
    ensures QueryLabels(EqualityLabels(labels)[..n], RenderPairs(labels[n..])) == Ok(EqualityLabels(labels))
    decreases |labels| - n
  {
    var matchers := EqualityLabels(labels);
    if n == |labels| {
      assert matchers[..n] == matchers && labels[n..] == [];
    } else {
      QueryLabelOfRendered(labels[n]);
      QueryLabelsOfRendered(labels, n + 1);
      assert labels[n..][0] == labels[n] && labels[n..][1..] == labels[n + 1..];
      assert RenderPairs(labels[n..])[1..] == RenderPairs(labels[n + 1..]);
      assert matchers[..n] + [matchers[n]] == matchers[..n + 1];
      forall i | 0 <= i < n ensures labels[i].key != labels[n].key {
        Ordering.LessIsIrreflexive(labels[i].key);
      }
    }
  }

  lemma {:induction false} StoredLabelIsFound(labels: seq<SecretLabel>, i: nat)
    requires i < |labels| && SecretLabelsSorted(labels)
    ensures SecretLabelValue(labels, labels[i].key) == Some(labels[i].value)
  {
    if i == 0 {
    } else {
      Ordering.LessIsIrreflexive(labels[0].key);
      assert labels[1..][i - 1] == labels[i];
      StoredLabelIsFound(labels[1..], i - 1);
    }
  }

  /** A valid selector's own spelling is always a query that selects it. The query is the
      selector's prefix-and-equality form, except that the tuples `*` and `.` widen to the whole
      vault: their bare spelling is the wildcard. */
  lemma QueryOfRender(selector: SecretSelector)
    requires ValidSelector(selector)
    ensures Query(Render(selector)) ==
            Ok(KeyspaceSelector(
                 if SpelledLikeWildcard(selector.tuple) then AnyTuple else Prefix(selector.tuple),
                 EqualityLabels(selector.labels)))
    ensures SelectorMatches(Query(Render(selector)).value, selector)
  {
    SectionOfRendered(selector);
    QueryTupleOfRendered(selector.tuple, selector.labels != []);
    QueryLabelsOfRendered(selector.labels, 0);
    assert selector.labels[0..] == selector.labels && EqualityLabels(selector.labels)[..0] == [];
    forall i | 0 <= i < |selector.labels|
      ensures SecretLabelValue(selector.labels, selector.labels[i].key) == Some(selector.labels[i].value)
    {
      StoredLabelIsFound(selector.labels, i);
    }
  }

  /** Exactly which secrets such a query selects: those under the tuple carrying every label. */
  lemma RenderedQuerySelects(selector: SecretSelector, secret: SecretSelector)
    requires ValidSelector(selector)
    ensures Query(Render(selector)).Ok?
    ensures SelectorMatches(Query(Render(selector)).value, secret) <==>
            && (SpelledLikeWildcard(selector.tuple) || selector.tuple <= secret.tuple)
            && forall i :: 0 <= i < |selector.labels| ==>
                 SecretLabelValue(secret.labels, selector.labels[i].key) == Some(selector.labels[i].value)
  {
    QueryOfRender(selector);
    var query := Query(Render(selector)).value;
    assert forall i :: 0 <= i < |query.labels| ==>
        query.labels[i] == KeyspaceLabel(selector.labels[i].key, Equals(selector.labels[i].value));
  }

  // ---------------------------------------------------------------------------------------
  // Every accepted query
  // ---------------------------------------------------------------------------------------

  /** The three label forms a query can name: absence, any value, one non-empty value. */
  predicate LabelForm(entry: KeyspaceLabel) {
    entry.key != "" && !entry.matcher.In? && entry.matcher != Equals("")
  }

  /** What the query language can say. */
  predicate Queryable(query: KeyspaceSelector) {
    && !query.tuple.Exact?
    && (query.tuple.Prefix? ==>
          && query.tuple.parts != []
          && forall i :: 0 <= i < |query.tuple.parts| ==> query.tuple.parts[i] != "")
    && (forall i :: 0 <= i < |query.labels| ==> LabelForm(query.labels[i]))
    && DistinctKeys(query.labels)
  }

  lemma QueryLabelAccepted(raw: string)
    requires QueryLabel(raw).Ok?
    ensures Scan(CLEAN, raw) == CLEAN && LabelForm(QueryLabel(raw).value)
  {
    if raw != "" && raw[0] == '!' {
      DecodeIffClosed(raw[1..]);
    } else {
      SplitOncePeels(CLEAN, raw, '=');
      match SplitOnce(raw, '=') {
        case None => DecodeIffClosed(raw);
        case Some(h) =>
          DecodeIffClosed(h.1);
          ScanConcat(CLEAN, h.0 + "=", h.1);
          ScanConcat(CLEAN, h.0, "=");
          assert Scan(CLEAN, "=") == CLEAN;
      }
    }
  }

  lemma {:induction false} QueryLabelsAccepted(taken: seq<KeyspaceLabel>, raws: seq<string>)
    requires QueryLabels(taken, raws).Ok? && DistinctKeys(taken)
    requires forall i :: 0 <= i < |taken| ==> LabelForm(taken[i])
    ensures DistinctKeys(QueryLabels(taken, raws).value)
    ensures forall i :: 0 <= i < |QueryLabels(taken, raws).value| ==> LabelForm(QueryLabels(taken, raws).value[i])
    ensures forall i :: 0 <= i < |raws| ==> Scan(CLEAN, raws[i]) == CLEAN
    decreases |raws|
  {
    if raws == [] {
    } else {
      QueryLabelAccepted(raws[0]);
      QueryLabelsAccepted(taken + [QueryLabel(raws[0]).value], raws[1..]);
      forall i | 0 <= i < |raws| ensures Scan(CLEAN, raws[i]) == CLEAN {
        if i > 0 { assert raws[i] == raws[1..][i - 1]; }
      }
    }
  }

  lemma AcceptedIsQueryable(value: string)
    requires Query(value).Ok?
    ensures Queryable(Query(value).value)
  {
    var section := LabelSection(value);
    QueryLabelsAccepted([], RawLabels(section.1));
    if QueryTuple(section.0, section.1.Some?).value.Prefix? {
      SegmentsAccepted(Split(section.0, '/'));
    }
  }

  /** An accepted query is canonical, so the subsumption check is exact on it. */
  lemma AcceptedQueryIsExact(value: string, parent: KeyspaceSelector)
    requires Query(value).Ok? && NonEmptyPrefix(parent)
    ensures NonEmptyPrefix(Query(value).value)
    ensures SelectorSubsumes(parent, Query(value).value) <==> Contains(parent, Query(value).value)
  {
    AcceptedIsQueryable(value);
    SubsumptionExact(parent, Query(value).value);
  }

  // ---------------------------------------------------------------------------------------
  // Everything a query can say
  // ---------------------------------------------------------------------------------------

  function SpellLabel(entry: KeyspaceLabel): string {
    match entry.matcher
    case Absent => "!" + Escape(entry.key)
    case Equals(text) => RenderPair(SecretLabel(entry.key, text))
    case _ => Escape(entry.key)
  }

  function SpellLabels(labels: seq<KeyspaceLabel>): (texts: seq<string>)
    ensures |texts| == |labels|
  {
    if labels == [] then [] else [SpellLabel(labels[0])] + SpellLabels(labels[1..])
  }

  /** A wildcard segment meant literally is quoted. */
  function SpellTuple(tuple: TupleMatcher): string {
    match tuple
    case AnyTuple => "*"
    case _ =>
      if SpelledLikeWildcard(tuple.parts) then "\"" + Backslashed(tuple.parts[0]) + "\""
      else EscapeTuple(tuple.parts)
  }

  function Spell(query: KeyspaceSelector): string {
    if query.labels == [] then SpellTuple(query.tuple)
    else SpellTuple(query.tuple) + "@" + Join(SpellLabels(query.labels), '&')
  }

  lemma SpelledLabelClosed(entry: KeyspaceLabel)
    ensures Uncut(CLEAN, SpellLabel(entry), '&') && Scan(CLEAN, SpellLabel(entry)) == CLEAN
  {
    var k := Escape(entry.key);
    EscapeRoundTrip(entry.key, '&');
    match entry.matcher {
      case Absent =>
        assert ("!" + k)[1..] == k;
      case Equals(text) => RenderPairClosed(SecretLabel(entry.key, text));
      case _ =>
    }
  }

  lemma SpelledLabelReads(entry: KeyspaceLabel)
    requires LabelForm(entry)
    ensures QueryLabel(SpellLabel(entry)) == Ok(entry)
  {
    var k := Escape(entry.key);
    EscapeRoundTrip(entry.key, '=');
    match entry.matcher {
      case Absent =>
        assert ("!" + k)[1..] == k;
      case Equals(text) => QueryLabelOfRendered(SecretLabel(entry.key, text));
      case _ => SplitOfUncut(CLEAN, k, '=');
    }
  }

  lemma {:induction false} SpelledLabelsClosed(labels: seq<KeyspaceLabel>)
    ensures Closed(SpellLabels(labels), '&')
  {
    if labels == [] {
    } else {
      SpelledLabelClosed(labels[0]);
      SpelledLabelsClosed(labels[1..]);
      var texts := SpellLabels(labels);
      forall i | 0 <= i < |texts| ensures Uncut(CLEAN, texts[i], '&') && Scan(CLEAN, texts[i]) == CLEAN {
        if i > 0 { assert texts[i] == SpellLabels(labels[1..])[i - 1]; }
      }
    }
  }

  lemma {:induction false} SpelledLabelsRead(labels: seq<KeyspaceLabel>, n: nat)
    requires n <= |labels| && DistinctKeys(labels) && forall i :: 0 <= i < |labels| ==> LabelForm(labels[i])
    ensures QueryLabels(labels[..n], SpellLabels(labels[n..])) == Ok(labels)
    decreases |labels| - n
  {
    if n == |labels| {
      assert labels[..n] == labels && labels[n..] == [];
    } else {
      SpelledLabelReads(labels[n]);
      SpelledLabelsRead(labels, n + 1);
      assert labels[n..][0] == labels[n] && labels[n..][1..] == labels[n + 1..];
      assert SpellLabels(labels[n..])[1..] == SpellLabels(labels[n + 1..]);
      assert labels[..n] + [labels[n]] == labels[..n + 1];
    }
  }

  lemma SpelledTupleReads(tuple: TupleMatcher, labelled: bool)
    requires Queryable(KeyspaceSelector(tuple, []))
    ensures QueryTuple(SpellTuple(tuple), labelled) == Ok(tuple)
    ensures Uncut(CLEAN, SpellTuple(tuple), '@') && Scan(CLEAN, SpellTuple(tuple)) == CLEAN
  {
    if tuple.AnyTuple? {
      assert Scan(CLEAN, "*") == CLEAN && Uncut(CLEAN, "*", '@');
    } else if SpelledLikeWildcard(tuple.parts) {
      var text := SpellTuple(tuple);
      QuotedRoundTrip(tuple.parts[0], '@');
      QuotedRoundTrip(tuple.parts[0], '/');
      SplitOfUncut(CLEAN, text, '/');
      assert text[0] == '\"';
      assert Segments([text][1..]) == Ok([]);
      assert [tuple.parts[0]] + [] == tuple.parts;
    } else {
      QueryTupleOfRendered(tuple.parts, labelled);
      TuplePathOfRendered(tuple.parts);
    }
  }

  lemma SpelledSections(query: KeyspaceSelector)
    requires Queryable(query)
    ensures LabelSection(Spell(query)) ==
            (SpellTuple(query.tuple), if query.labels == [] then None else Some(SpellLabels(query.labels)))
  {
    var tuple, labels := SpellTuple(query.tuple), query.labels;
    SpelledTupleReads(query.tuple, labels != []);
    if labels == [] {
      SplitOfUncut(CLEAN, tuple, '@');
    } else {
      var texts := SpellLabels(labels);
      SpelledLabelsClosed(labels);
      SplitOfJoin(texts, '&');
      SplitAcross(CLEAN, tuple, '@', Join(texts, '&'));
    }
  }

  lemma SpellReads(query: KeyspaceSelector)
    requires Queryable(query)
    ensures Query(Spell(query)) == Ok(query)
  {
    SpelledSections(query);
    SpelledTupleReads(query.tuple, query.labels != []);
    SpelledLabelsRead(query.labels, 0);
    assert query.labels[0..] == query.labels && query.labels[..0] == [];
  }

  /** The query language says exactly the canonical keyspaces of its three label forms: every one
      of them is what some query parses to, and no query parses to anything else. */
  lemma QueryableIff(query: KeyspaceSelector)
    ensures (exists value :: Query(value) == Ok(query)) <==> Queryable(query)
    ensures Queryable(query) ==> Query(Spell(query)) == Ok(query)
  {
    if Queryable(query) { SpellReads(query); }
    forall value | Query(value) == Ok(query) ensures Queryable(query) {
      AcceptedIsQueryable(value);
    }
  }

  /** The query parser refuses what the selector parser refuses for unclosed quoting. */
  lemma UnclosedQueryIsRefused(value: string)
    requires Scan(CLEAN, value) != CLEAN
    ensures Query(value).Err?
  {
    if Query(value).Ok? {
      var section := LabelSection(value);
      QueryLabelsAccepted([], RawLabels(section.1));
      ClosedSections(value);
      if section.1.None? {
        assert Scan(CLEAN, "*") == CLEAN && Scan(CLEAN, ".") == CLEAN && Scan(CLEAN, "/") == CLEAN;
        SegmentsAccepted(Split(value, '/'));
      }
    }
  }

  /** The whole vault is said by one of three bare texts, or by labels alone; an empty query and
      empty labels say nothing. */
  lemma WholeVaultSpelled()
    ensures Query("*") == Query(".") == Query("/") == Ok(KeyspaceSelector(AnyTuple, []))
    ensures Query("") == Err(EmptySelector)
    ensures Query("\"*\"") == Ok(KeyspaceSelector(Prefix(["*"]), []))
  {
    var any := KeyspaceSelector(AnyTuple, []);
    forall text | text in {"*", ".", "/"} ensures Query(text) == Ok(any) {
      assert Uncut(CLEAN, text, '@');
      SplitOfUncut(CLEAN, text, '@');
    }
    assert Uncut(CLEAN, "", '@');
    SplitOfUncut(CLEAN, "", '@');
    var star := KeyspaceSelector(Prefix(["*"]), []);
    SpellReads(star);
    assert Backslashed("*") == "*" && Spell(star) == "\"*\"";
  }
}
