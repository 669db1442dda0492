/** Rendering and parsing concrete selectors are inverse on exactly the valid selectors. */
module SelectorRoundTrip {
  import opened Format
  import opened Ordering
  import opened Matching
  import opened Quoting
  import opened SelectorGrammar

  /** What a stored selector always satisfies: no empty part anywhere, labels strictly by key. */
  predicate ValidSelector(selector: SecretSelector) {
    && selector.tuple != []
    && (forall i :: 0 <= i < |selector.tuple| ==> selector.tuple[i] != "")
    && (forall i :: 0 <= i < |selector.labels| ==> selector.labels[i].key != "" && selector.labels[i].value != "")
    && SecretLabelsSorted(selector.labels)
  }

  // ---------------------------------------------------------------------------------------
  // Parse after render
  // ---------------------------------------------------------------------------------------

  lemma {:induction false} EscapesClosed(parts: seq<string>, delim: char)
    requires Structural(delim)
    ensures Closed(Escapes(parts), delim)
  {
    if parts == [] {
    } else {
      EscapeRoundTrip(parts[0], delim);
      EscapesClosed(parts[1..], delim);
      var texts := Escapes(parts);
      forall i | 0 <= i < |texts| ensures Uncut(CLEAN, texts[i], delim) && Scan(CLEAN, texts[i]) == CLEAN {
        if i > 0 { assert texts[i] == Escapes(parts[1..])[i - 1]; }
      }
    }
  }

  lemma {:induction false} SegmentsOfEscapes(parts: seq<string>)
    requires forall i :: 0 <= i < |parts| ==> parts[i] != ""
    ensures Segments(Escapes(parts)) == Ok(parts)
  {
    if parts == [] {
    } else {
      EscapeRoundTrip(parts[0], '/');
      assert forall i :: 0 <= i < |parts[1..]| ==> parts[1..][i] == parts[i + 1];
      SegmentsOfEscapes(parts[1..]);
      assert Escapes(parts)[1..] == Escapes(parts[1..]);
      assert [parts[0]] + parts[1..] == parts;
    }
  }

  lemma TuplePathOfRendered(parts: seq<string>)
    requires parts != [] && forall i :: 0 <= i < |parts| ==> parts[i] != ""
    ensures EscapeTuple(parts) != "" && TuplePath(EscapeTuple(parts)) == Ok(parts)
    ensures Uncut(CLEAN, EscapeTuple(parts), '@') && Scan(CLEAN, EscapeTuple(parts)) == CLEAN
  {
    var texts := Escapes(parts);
    EscapesClosed(parts, '/');
    EscapesClosed(parts, '@');
    SplitOfJoin(texts, '/');
    SegmentsOfEscapes(parts);
    JoinUncut(texts, '/', '@');
    EscapeRoundTrip(parts[0], '/');
    assert texts[0] != "";
  }

  lemma RenderPairClosed(entry: SecretLabel)
    ensures Uncut(CLEAN, RenderPair(entry), '&') && Scan(CLEAN, RenderPair(entry)) == CLEAN
    ensures SplitOnce(RenderPair(entry), '=') == Some((Escape(entry.key), Escape(entry.value)))
    ensures RenderPair(entry) != "" && RenderPair(entry)[0] != '!'
  {
    var k, v := Escape(entry.key), Escape(entry.value);
    EscapeRoundTrip(entry.key, '&');
    EscapeRoundTrip(entry.value, '&');
    EscapeRoundTrip(entry.key, '=');
    SplitAcross(CLEAN, k, '=', v);
    ScanConcat(CLEAN, k + "=", v);
    ScanConcat(CLEAN, k, "=");
    UncutConcat(CLEAN, k + "=", v, '&');
    UncutConcat(CLEAN, k, "=", '&');
    assert Scan(CLEAN, "=") == CLEAN && Uncut(CLEAN, "=", '&');
    assert RenderPair(entry)[0] == k[0];
  }

  lemma {:induction false} RenderPairsClosed(labels: seq<SecretLabel>)
    ensures Closed(RenderPairs(labels), '&')
  {
    if labels == [] {
    } else {
      RenderPairClosed(labels[0]);
      RenderPairsClosed(labels[1..]);
      var texts := RenderPairs(labels);
      forall i | 0 <= i < |texts| ensures Uncut(CLEAN, texts[i], '&') && Scan(CLEAN, texts[i]) == CLEAN {
        if i > 0 { assert texts[i] == RenderPairs(labels[1..])[i - 1]; }
      }
    }
  }

  lemma PairOfRendered(entry: SecretLabel)
    requires entry.key != "" && entry.value != ""
    ensures Pair(RenderPair(entry)) == Ok(entry)
  {
    RenderPairClosed(entry);
    EscapeRoundTrip(entry.key, '=');
    EscapeRoundTrip(entry.value, '=');
  }

  lemma PairsCons(raws: seq<string>, entry: SecretLabel, rest: seq<SecretLabel>)
    requires raws != [] && Pair(raws[0]) == Ok(entry) && Pairs(raws[1..]) == Ok(rest)
    ensures Pairs(raws) == Ok([entry] + rest)
  {
  }

  lemma RenderPairsCons(labels: seq<SecretLabel>)
    requires labels != []
    ensures var texts := RenderPairs(labels);
            texts != [] && texts[0] == RenderPair(labels[0]) && texts[1..] == RenderPairs(labels[1..])
  {
  }

  lemma {:induction false} PairsOfRendered(labels: seq<SecretLabel>)
    requires forall i :: 0 <= i < |labels| ==> labels[i].key != "" && labels[i].value != ""
    ensures Pairs(RenderPairs(labels)) == Ok(labels)
  {
    if labels == [] {
    } else {
      var entry, rest := labels[0], labels[1..];
      PairOfRendered(entry);
      assert forall i :: 0 <= i < |rest| ==> rest[i] == labels[i + 1];
      PairsOfRendered(rest);
      RenderPairsCons(labels);
      PairsCons(RenderPairs(labels), entry, rest);
      assert [entry] + rest == labels;
    }
  }

  /** A rendered selector splits back into its rendered tuple and rendered labels. */
  lemma SectionOfRendered(selector: SecretSelector)
    requires ValidSelector(selector)
    ensures LabelSection(Render(selector)) ==
            (EscapeTuple(selector.tuple), if selector.labels == [] then None else Some(RenderPairs(selector.labels)))
  {
    var tuple, labels := EscapeTuple(selector.tuple), selector.labels;
    TuplePathOfRendered(selector.tuple);
    if labels == [] {
      SplitOfUncut(CLEAN, tuple, '@');
    } else {
      var texts := RenderPairs(labels);
      RenderPairsClosed(labels);
      SplitOfJoin(texts, '&');
      SplitAcross(CLEAN, tuple, '@', Join(texts, '&'));
    }
  }

  /** Parsing the canonical spelling yields exactly the selector, whatever characters its
      segments, keys and values contain. */
  lemma ParseOfRender(selector: SecretSelector)
    requires ValidSelector(selector)
    ensures Selector(Render(selector)) == Ok(selector)
  {
    SectionOfRendered(selector);
    TuplePathOfRendered(selector.tuple);
    PairsOfRendered(selector.labels);
    SortedOfStrict(selector.labels);
  }

  /** So the canonical spelling names one selector. */
  lemma RenderInjective(a: SecretSelector, b: SecretSelector)
    requires ValidSelector(a) && ValidSelector(b)
    ensures Render(a) == Render(b) <==> a == b
  {
    ParseOfRender(a);
    ParseOfRender(b);
  }

  // ---------------------------------------------------------------------------------------
  // Everything accepted is valid
  // ---------------------------------------------------------------------------------------

  lemma {:induction false} SegmentsAccepted(parts: seq<string>)
    requires Segments(parts).Ok?
    ensures |Segments(parts).value| == |parts|
    ensures forall i :: 0 <= i < |parts| ==> Segments(parts).value[i] != "" && Scan(CLEAN, parts[i]) == CLEAN
  {
    if parts == [] {
    } else {
      SegmentsAccepted(parts[1..]);
      DecodeIffClosed(parts[0]);
      forall i | 0 <= i < |parts| ensures Segments(parts).value[i] != "" && Scan(CLEAN, parts[i]) == CLEAN {
        if i > 0 { assert parts[i] == parts[1..][i - 1]; }
      }
    }
  }

  lemma PairAccepted(raw: string)
    requires Pair(raw).Ok?
    ensures Pair(raw).value.key != "" && Pair(raw).value.value != "" && Scan(CLEAN, raw) == CLEAN
  {
    SplitOncePeels(CLEAN, raw, '=');
    var h := SplitOnce(raw, '=').value;
    DecodeIffClosed(h.1);
    ScanConcat(CLEAN, h.0 + "=", h.1);
    ScanConcat(CLEAN, h.0, "=");
    assert Scan(CLEAN, "=") == CLEAN;
  }

  lemma {:induction false} PairsAccepted(raws: seq<string>)
    requires Pairs(raws).Ok?
    ensures |Pairs(raws).value| == |raws|
    ensures forall i :: 0 <= i < |raws| ==> Scan(CLEAN, raws[i]) == CLEAN
    ensures forall entry :: entry in Pairs(raws).value ==> entry.key != "" && entry.value != ""
  {
    if raws == [] {
    } else {
      PairAccepted(raws[0]);
      PairsAccepted(raws[1..]);
      forall i | 0 <= i < |raws| ensures Scan(CLEAN, raws[i]) == CLEAN {
        if i > 0 { assert raws[i] == raws[1..][i - 1]; }
      }
    }
  }

  lemma SortedFieldsNonEmpty(labels: seq<SecretLabel>)
    requires forall entry :: entry in labels ==> entry.key != "" && entry.value != ""
    ensures forall i :: 0 <= i < |Sorted(labels)| ==> Sorted(labels)[i].key != "" && Sorted(labels)[i].value != ""
  {
    var sorted := Sorted(labels);
    SortedIsAscending(labels);
    forall i | 0 <= i < |sorted| ensures sorted[i].key != "" && sorted[i].value != "" {
      assert sorted[i] in multiset(sorted);
      assert sorted[i] in labels;
    }
  }

  lemma SortedStrictly(labels: seq<SecretLabel>)
    requires !AdjacentRepeat(Sorted(labels))
    ensures SecretLabelsSorted(Sorted(labels))
  {
    var sorted := Sorted(labels);
    SortedIsAscending(labels);
    forall i, j | 0 <= i < j < |sorted| ensures Less(sorted[i].key, sorted[j].key) {
      NoRepeatIsStrict(sorted, i, j);
    }
  }

  /** Whatever the parser accepts is a valid selector, and its rendering parses back to it. */
  lemma AcceptedIsValid(value: string)
    requires Selector(value).Ok?
    ensures ValidSelector(Selector(value).value)
    ensures Selector(Render(Selector(value).value)) == Selector(value)
  {
    var section := LabelSection(value);
    SegmentsAccepted(Split(section.0, '/'));
    var labels := Pairs(RawLabels(section.1)).value;
    PairsAccepted(RawLabels(section.1));
    SortedFieldsNonEmpty(labels);
    SortedStrictly(labels);
    ParseOfRender(Selector(value).value);
  }

  /** Valid selectors are exactly the parseable ones, and rendering what was parsed is stable. */
  lemma ParseableIffValid(selector: SecretSelector)
    ensures (exists value :: Selector(value) == Ok(selector)) <==> ValidSelector(selector)
    ensures forall value :: Selector(value) == Ok(selector) ==> Selector(Render(selector)) == Ok(selector)
  {
    if ValidSelector(selector) {
      ParseOfRender(selector);
    }
    forall value | Selector(value) == Ok(selector) ensures ValidSelector(selector) {
      AcceptedIsValid(value);
    }
  }

  lemma ClosedSections(value: string)
    ensures match SplitOnce(value, '@')
            case None => Scan(CLEAN, Split(value, '/')[|Split(value, '/')| - 1]) == Scan(CLEAN, value)
            case Some(h) =>
              var raws := Split(h.1, '&');
              Scan(CLEAN, h.0) == CLEAN && Scan(CLEAN, raws[|raws| - 1]) == Scan(CLEAN, value)
  {
    SplitOncePeels(CLEAN, value, '@');
    match SplitOnce(value, '@') {
      case None => JoinOfSplit(value, '/');
      case Some(h) =>
        JoinOfSplit(h.1, '&');
        ScanConcat(CLEAN, h.0 + "@", h.1);
        ScanConcat(CLEAN, h.0, "@");
        assert Scan(CLEAN, "@") == CLEAN;
    }
  }

  /** A text whose scan ends inside a quote or after a backslash is no selector. */
  lemma UnclosedIsRefused(value: string)
    requires Scan(CLEAN, value) != CLEAN
    ensures Selector(value).Err?
  {
    if Selector(value).Ok? {
      var section := LabelSection(value);
      SegmentsAccepted(Split(section.0, '/'));
      PairsAccepted(RawLabels(section.1));
      ClosedSections(value);
    }
  }
}
