/**
 The quoting layer under the selector grammar: a scanner that tracks double-quote runs and
 backslash escapes, splitting at delimiters outside both, removing the quoting from one field,
 and the canonical spelling of a field. Each loop is proved against a recursive reading of the
 same characters.
 */
module Quoting {
  import opened Format

  /** Where a scan stands between two characters. */
  datatype Quote = Quote(inQuote: bool, escaped: bool)

  const CLEAN := Quote(false, false)
  const QUOTED := Quote(true, false)

  function Advance(q: Quote, ch: char): Quote {
    if q.escaped then q.(escaped := false)
    else if ch == '\\' then q.(escaped := true)
    else if ch == '\"' then q.(inQuote := !q.inQuote)
    else q
  }

  function Scan(q: Quote, s: string): Quote
    decreases |s|
  {
    if s == "" then q else Scan(Advance(q, s[0]), s[1..])
  }

  predicate Ordinary(ch: char) {
    ch != '\\' && ch != '\"'
  }

  /** Whether `ch` read in state `q` is a top-level delimiter. */
  predicate Cuts(q: Quote, ch: char, delim: char) {
    q == CLEAN && ch == delim && Ordinary(delim)
  }

  lemma {:induction false} ScanConcat(q: Quote, a: string, b: string)
    ensures Scan(q, a + b) == Scan(Scan(q, a), b)
    decreases |a|
  {
    if a == "" {
      assert a + b == b;
    } else {
      assert (a + b)[1..] == a[1..] + b;
      ScanConcat(Advance(q, a[0]), a[1..], b);
    }
  }

  // ---------------------------------------------------------------------------------------
  // Splitting
  // ---------------------------------------------------------------------------------------

  function Prepend(text: string, parts: seq<string>): seq<string>
    requires parts != []
  {
    [text + parts[0]] + parts[1..]
  }

  function SplitFrom(q: Quote, s: string, delim: char): (parts: seq<string>)
    ensures parts != []
    decreases |s|
  {
    if s == "" then [""]
    else
      var rest := SplitFrom(Advance(q, s[0]), s[1..], delim);
      if Cuts(q, s[0], delim) then [""] + rest else Prepend([s[0]], rest)
  }

  function Split(s: string, delim: char): (parts: seq<string>)
    ensures parts != []
  {
    SplitFrom(CLEAN, s, delim)
  }

  function SplitOnceFrom(q: Quote, s: string, delim: char): Option<(string, string)>
    decreases |s|
  {
    if s == "" then None
    else if Cuts(q, s[0], delim) then Some(("", s[1..]))
    else
      match SplitOnceFrom(Advance(q, s[0]), s[1..], delim)
      case None => None
      case Some(halves) => Some(([s[0]] + halves.0, halves.1))
  }

  function SplitOnce(s: string, delim: char): Option<(string, string)> {
    SplitOnceFrom(CLEAN, s, delim)
  }

  /** No character of `s` is a top-level delimiter. */
  predicate Uncut(q: Quote, s: string, delim: char)
    decreases |s|
  {
    s == "" || (!Cuts(q, s[0], delim) && Uncut(Advance(q, s[0]), s[1..], delim))
  }

  function Join(parts: seq<string>, delim: char): string {
    if parts == [] then ""
    else if |parts| == 1 then parts[0]
    else parts[0] + [delim] + Join(parts[1..], delim)
  }

  /** What is still to be pushed when a split has reached `index` with its current part begun at
      `start`. */
  function Remaining(s: string, start: nat, index: nat, q: Quote, delim: char): seq<string>
    requires start <= index <= |s|
  {
    Prepend(s[start..index], SplitFrom(q, s[index..], delim))
  }

  lemma RemainingStep(s: string, start: nat, index: nat, q: Quote, delim: char)
    requires start <= index < |s|
    ensures Remaining(s, start, index, q, delim) ==
            if Cuts(q, s[index], delim)
            then [s[start..index]] + Remaining(s, index + 1, index + 1, CLEAN, delim)
            else Remaining(s, start, index + 1, Advance(q, s[index]), delim)
  {
    var rest := SplitFrom(Advance(q, s[index]), s[index + 1..], delim);
    assert s[index..][0] == s[index] && s[index..][1..] == s[index + 1..];
    if Cuts(q, s[index], delim) {
      assert ([""] + rest)[1..] == rest && s[start..index] + "" == s[start..index];
      assert s[index + 1..index + 1] + rest[0] == rest[0] && [rest[0]] + rest[1..] == rest;
    } else {
      assert Prepend([s[index]], rest)[1..] == rest[1..];
      assert s[start..index] + ([s[index]] + rest[0]) == s[start..index + 1] + rest[0];
    }
  }

  lemma RemainingPush(parts: seq<string>, s: string, start: nat, index: nat, q: Quote, delim: char)
    requires start <= index < |s|
    ensures parts + Remaining(s, start, index, q, delim) ==
            if Cuts(q, s[index], delim)
            then (parts + [s[start..index]]) + Remaining(s, index + 1, index + 1, CLEAN, delim)
            else parts + Remaining(s, start, index + 1, Advance(q, s[index]), delim)
  {
    RemainingStep(s, start, index, q, delim);
  }

  lemma RemainingAtStart(s: string, delim: char)
    ensures Split(s, delim) == [] + Remaining(s, 0, 0, CLEAN, delim)
  {
    var parts := Split(s, delim);
    assert s[0..] == s;
    assert s[0..0] + parts[0] == parts[0];
  }

  lemma RemainingAtEnd(parts: seq<string>, s: string, start: nat, q: Quote, delim: char)
    requires start <= |s|
    ensures parts + Remaining(s, start, |s|, q, delim) == parts + [s[start..]]
  {
    assert s[|s|..] == "";
    assert s[start..|s|] + "" == s[start..];
  }

  method SplitUnquoted(s: string, delim: char) returns (parts: seq<string>)
    ensures parts == Split(s, delim)
  {
    parts := [];
    var start, inQuote, escaped := 0, false, false;
    RemainingAtStart(s, delim);
    for index := 0 to |s|
      invariant start <= index
      invariant Split(s, delim) == parts + Remaining(s, start, index, Quote(inQuote, escaped), delim)
    {
      var ch := s[index];
      RemainingPush(parts, s, start, index, Quote(inQuote, escaped), delim);
      if escaped {
        escaped := false;
      } else if ch == '\\' {
        escaped := true;
      } else if ch == '\"' {
        inQuote := !inQuote;
      } else if ch == delim && !inQuote {
        parts := parts + [s[start..index]];
        start := index + 1;
      }
    }
    RemainingAtEnd(parts, s, start, Quote(inQuote, escaped), delim);
    parts := parts + [s[start..]];
  }

  method SplitOnceUnquoted(s: string, delim: char) returns (halves: Option<(string, string)>)
    ensures halves == SplitOnce(s, delim)
  {
    var inQuote, escaped := false, false;
    assert s[0..] == s && forall t: string :: s[..0] + t == t;
    for index := 0 to |s|
      invariant SplitOnce(s, delim) ==
                match SplitOnceFrom(Quote(inQuote, escaped), s[index..], delim)
                case None => None
                case Some(h) => Some((s[..index] + h.0, h.1))
    {
      var ch := s[index];
      assert s[index..][0] == ch && s[index..][1..] == s[index + 1..] && s[..index] + [ch] == s[..index + 1];
      if escaped {
        escaped := false;
      } else if ch == '\\' {
        escaped := true;
      } else if ch == '\"' {
        inQuote := !inQuote;
      } else if ch == delim && !inQuote {
        assert s[..index] + "" == s[..index];
        return Some((s[..index], s[index + 1..]));
      }
      assert forall t: string :: s[..index] + ([ch] + t) == s[..index + 1] + t;
    }
    halves := None;
  }

  lemma ConcatAssociative<T>(a: seq<T>, b: seq<T>, c: seq<T>)
    ensures a + (b + c) == (a + b) + c
  {
  }

  /** `SplitOnce` peels exactly the first part, and only at a point where the scan is clean. */
  lemma {:induction false} SplitOncePeels(q: Quote, s: string, delim: char)
    ensures match SplitOnceFrom(q, s, delim)
            case None => SplitFrom(q, s, delim) == [s] && Uncut(q, s, delim)
            case Some(h) =>
              && s == h.0 + [delim] + h.1
              && SplitFrom(q, s, delim) == [h.0] + Split(h.1, delim)
              && Scan(q, h.0) == CLEAN && Uncut(q, h.0, delim) && Ordinary(delim)
    decreases |s|
  {
    if s != "" && !Cuts(q, s[0], delim) {
      SplitOncePeels(Advance(q, s[0]), s[1..], delim);
      assert s == [s[0]] + s[1..];
      match SplitOnceFrom(Advance(q, s[0]), s[1..], delim) {
        case None =>
        case Some(h) =>
          assert ([s[0]] + h.0)[1..] == h.0;
          ConcatAssociative([s[0]], h.0 + [delim], h.1);
          ConcatAssociative([s[0]], h.0, [delim]);
      }
    }
  }

  /** Conversely, a clean uncut text before a delimiter is the first part. */
  lemma {:induction false} SplitAcross(q: Quote, a: string, delim: char, b: string)
    requires Uncut(q, a, delim) && Scan(q, a) == CLEAN && Ordinary(delim)
    ensures SplitOnceFrom(q, a + [delim] + b, delim) == Some((a, b))
    ensures SplitFrom(q, a + [delim] + b, delim) == [a] + Split(b, delim)
    decreases |a|
  {
    var s := a + [delim] + b;
    if a == "" {
      assert s[1..] == b;
    } else {
      assert s[1..] == a[1..] + [delim] + b;
      SplitAcross(Advance(q, a[0]), a[1..], delim, b);
      assert [a[0]] + a[1..] == a;
    }
  }

  lemma {:induction false} SplitOfUncut(q: Quote, s: string, delim: char)
    requires Uncut(q, s, delim)
    ensures SplitFrom(q, s, delim) == [s] && SplitOnceFrom(q, s, delim) == None
    decreases |s|
  {
    if s == "" {
    } else {
      SplitOfUncut(Advance(q, s[0]), s[1..], delim);
      assert [s[0]] + s[1..] == s;
    }
  }

  /** What a split result looks like: every part uncut, every part but the last closed. */
  predicate Separable(parts: seq<string>, delim: char) {
    && parts != []
    && (forall i :: 0 <= i < |parts| ==> Uncut(CLEAN, parts[i], delim))
    && (forall i :: 0 <= i < |parts| - 1 ==> Scan(CLEAN, parts[i]) == CLEAN)
  }

  /** Splitting loses nothing, cuts only in a clean state, and leaves the scan's end state to the
      last part. */
  lemma {:induction false} JoinOfSplit(s: string, delim: char)
    ensures Join(Split(s, delim), delim) == s
    ensures Separable(Split(s, delim), delim)
    ensures Scan(CLEAN, Split(s, delim)[|Split(s, delim)| - 1]) == Scan(CLEAN, s)
    decreases |s|
  {
    SplitOncePeels(CLEAN, s, delim);
    match SplitOnce(s, delim) {
      case None =>
      case Some(h) =>
        JoinOfSplit(h.1, delim);
        assert ([h.0] + Split(h.1, delim))[1..] == Split(h.1, delim);
        ScanConcat(CLEAN, h.0 + [delim], h.1);
        ScanConcat(CLEAN, h.0, [delim]);
        assert Scan(CLEAN, [delim]) == CLEAN;
    }
  }

  /** And the other way: any separable list is recovered from its joined text. With
      `JoinOfSplit`, splitting is the unique inverse of joining. */
  lemma {:induction false} SplitOfJoin(parts: seq<string>, delim: char)
    requires Separable(parts, delim) && Ordinary(delim)
    ensures Split(Join(parts, delim), delim) == parts
    ensures Join(parts, delim) == parts[0] <==> |parts| == 1
    decreases |parts|
  {
    if |parts| == 1 {
      SplitOfUncut(CLEAN, parts[0], delim);
    } else {
      SplitAcross(CLEAN, parts[0], delim, Join(parts[1..], delim));
      assert Separable(parts[1..], delim) by {
        assert forall i :: 0 <= i < |parts[1..]| ==> parts[1..][i] == parts[i + 1];
      }
      SplitOfJoin(parts[1..], delim);
      assert [parts[0]] + parts[1..] == parts;
    }
  }

  lemma {:induction false} UncutConcat(q: Quote, a: string, b: string, delim: char)
    ensures Uncut(q, a + b, delim) <==> Uncut(q, a, delim) && Uncut(Scan(q, a), b, delim)
    decreases |a|
  {
    if a == "" {
      assert a + b == b;
    } else {
      assert (a + b)[1..] == a[1..] + b;
      UncutConcat(Advance(q, a[0]), a[1..], b, delim);
    }
  }

  predicate Closed(parts: seq<string>, delim: char) {
    forall i :: 0 <= i < |parts| ==> Uncut(CLEAN, parts[i], delim) && Scan(CLEAN, parts[i]) == CLEAN
  }

  /** Joining with one delimiter introduces no cut for another. */
  lemma {:induction false} JoinUncut(parts: seq<string>, delim: char, other: char)
    requires Closed(parts, other) && Ordinary(delim) && delim != other
    ensures Uncut(CLEAN, Join(parts, delim), other) && Scan(CLEAN, Join(parts, delim)) == CLEAN
    decreases |parts|
  {
    if |parts| <= 1 {
    } else {
      assert Closed(parts[1..], other) by {
        assert forall i :: 0 <= i < |parts[1..]| ==> parts[1..][i] == parts[i + 1];
      }
      JoinUncut(parts[1..], delim, other);
      var head, tail := parts[0] + [delim], Join(parts[1..], delim);
      ScanConcat(CLEAN, parts[0], [delim]);
      UncutConcat(CLEAN, parts[0], [delim], other);
      assert Scan(CLEAN, [delim]) == CLEAN && Uncut(CLEAN, [delim], other);
      ScanConcat(CLEAN, head, tail);
      UncutConcat(CLEAN, head, tail, other);
    }
  }

  // ---------------------------------------------------------------------------------------
  // Decoding one field
  // ---------------------------------------------------------------------------------------

  datatype Refusal =
    | EmptySelector | EmptySegment | DanglingEscape | UnterminatedQuote
    | NotKeyValue | EmptyLabelPart | EmptyLabelValue | EmptyLabelKey | RepeatedKey

  datatype Parsed<+T> = Ok(value: T) | Err(reason: Refusal)

  function Emitted(q: Quote, ch: char): string {
    if q.escaped || Ordinary(ch) then [ch] else ""
  }

  /** The literal text of a field: quotes and unescaped backslashes dropped. */
  function Literal(q: Quote, s: string): string
    decreases |s|
  {
    if s == "" then ""
    else Emitted(q, s[0]) + Literal(Advance(q, s[0]), s[1..])
  }

  function Decode(raw: string): Parsed<string> {
    if Scan(CLEAN, raw).escaped then Err(DanglingEscape)
    else if Scan(CLEAN, raw).inQuote then Err(UnterminatedQuote)
    else Ok(Literal(CLEAN, raw))
  }

  lemma DecodeStep(out: string, raw: string, index: nat, q: Quote)
    requires index < |raw|
    ensures Scan(q, raw[index..]) == Scan(Advance(q, raw[index]), raw[index + 1..])
    ensures out + Literal(q, raw[index..])
         == (out + Emitted(q, raw[index])) + Literal(Advance(q, raw[index]), raw[index + 1..])
  {
    var rest := raw[index..];
    assert rest[0] == raw[index] && rest[1..] == raw[index + 1..];
    var tail := Literal(Advance(q, raw[index]), raw[index + 1..]);
    assert Literal(q, rest) == Emitted(q, raw[index]) + tail;
    ConcatAssociative(out, Emitted(q, raw[index]), tail);
  }

  method DecodeField(raw: string) returns (decoded: Parsed<string>)
    ensures decoded == Decode(raw)
  {
    var out, inQuote, escaped := "", false, false;
    assert raw[0..] == raw;
    for index := 0 to |raw|
      invariant Scan(CLEAN, raw) == Scan(Quote(inQuote, escaped), raw[index..])
      invariant Literal(CLEAN, raw) == out + Literal(Quote(inQuote, escaped), raw[index..])
    {
      var ch := raw[index];
      DecodeStep(out, raw, index, Quote(inQuote, escaped));
      if escaped {
        out := out + [ch];
        escaped := false;
      } else if ch == '\\' {
        assert out + "" == out;
        escaped := true;
      } else if ch == '\"' {
        assert out + "" == out;
        inQuote := !inQuote;
      } else {
        out := out + [ch];
      }
    }
    assert raw[|raw|..] == "";
    assert out + "" == out;
    if escaped {
      return Err(DanglingEscape);
    }
    if inQuote {
      return Err(UnterminatedQuote);
    }
    decoded := Ok(out);
  }

  lemma {:induction false} LiteralConcat(q: Quote, a: string, b: string)
    ensures Literal(q, a + b) == Literal(q, a) + Literal(Scan(q, a), b)
    decreases |a|
  {
    if a == "" {
      assert a + b == b;
    } else {
      assert (a + b)[1..] == a[1..] + b;
      LiteralConcat(Advance(q, a[0]), a[1..], b);
      ConcatAssociative(Emitted(q, a[0]), Literal(Advance(q, a[0]), a[1..]), Literal(Scan(q, a), b));
    }
  }

  /** Decode a field exactly when its scan ends clean. */
  lemma DecodeIffClosed(raw: string)
    ensures Decode(raw).Ok? <==> Scan(CLEAN, raw) == CLEAN
  {
  }

  function Literals(parts: seq<string>): (texts: seq<string>)
    ensures |texts| == |parts|
  {
    seq(|parts|, i requires 0 <= i < |parts| => Literal(CLEAN, parts[i]))
  }

  /** Splitting commutes with decoding: the text's literal is its parts' literals, joined. */
  lemma {:induction false} LiteralOfSplit(s: string, delim: char)
    ensures Literal(CLEAN, s) == Join(Literals(Split(s, delim)), delim)
    decreases |s|
  {
    SplitOncePeels(CLEAN, s, delim);
    match SplitOnce(s, delim) {
      case None =>
      case Some(h) =>
        LiteralOfSplit(h.1, delim);
        LiteralConcat(CLEAN, h.0 + [delim], h.1);
        LiteralConcat(CLEAN, h.0, [delim]);
        ScanConcat(CLEAN, h.0, [delim]);
        assert Scan(CLEAN, [delim]) == CLEAN && Literal(CLEAN, [delim]) == [delim];
        var parts := Split(s, delim);
        assert Literals(parts)[1..] == Literals(Split(h.1, delim));
    }
  }

  // ---------------------------------------------------------------------------------------
  // The canonical spelling of one field
  // ---------------------------------------------------------------------------------------

  predicate Structural(ch: char) {
    ch in "/@&=!\"\\"
  }

  predicate Plain(value: string) {
    value != "" && forall i :: 0 <= i < |value| ==> !Structural(value[i])
  }

  /** One character inside a quoted run. */
  function Spelled(ch: char): string {
    if Ordinary(ch) then [ch] else ['\\', ch]
  }

  function Backslashed(value: string): string {
    if value == "" then ""
    else Spelled(value[0]) + Backslashed(value[1..])
  }

  function Escape(value: string): string {
    if Plain(value) then value else "\"" + Backslashed(value) + "\""
  }

  lemma BackslashedStep(out: string, value: string, index: nat)
    requires index < |value|
    ensures out + Backslashed(value[index..]) ==
            (if Ordinary(value[index]) then out + [value[index]] else out + "\\" + [value[index]])
            + Backslashed(value[index + 1..])
  {
    var rest := value[index..];
    assert rest[0] == value[index] && rest[1..] == value[index + 1..];
    ConcatAssociative(out, Spelled(value[index]), Backslashed(value[index + 1..]));
    assert !Ordinary(value[index]) ==> out + Spelled(value[index]) == out + "\\" + [value[index]];
  }

  method EscapeSegment(value: string) returns (out: string)
    ensures out == Escape(value)
  {
    if value != "" && !(exists i :: 0 <= i < |value| && Structural(value[i])) {
      return value;
    }
    out := "\"";
    assert value[0..] == value;
    for index := 0 to |value|
      invariant "\"" + Backslashed(value) == out + Backslashed(value[index..])
    {
      var ch := value[index];
      BackslashedStep(out, value, index);
      if ch == '\"' || ch == '\\' {
        out := out + "\\" + [ch];
      } else {
        out := out + [ch];
      }
    }
    assert value[|value|..] == "" && out + "" == out;
    out := out + "\"";
  }

  lemma {:induction false} PlainScan(value: string, delim: char)
    requires forall i :: 0 <= i < |value| ==> !Structural(value[i])
    requires Structural(delim)
    ensures Scan(CLEAN, value) == CLEAN && Literal(CLEAN, value) == value && Uncut(CLEAN, value, delim)
  {
    if value == "" {
    } else {
      assert forall i :: 0 <= i < |value[1..]| ==> value[1..][i] == value[i + 1];
      assert !Structural(value[0]);
      PlainScan(value[1..], delim);
      assert [value[0]] + value[1..] == value;
    }
  }

  lemma SpelledScan(ch: char, delim: char)
    ensures Scan(QUOTED, Spelled(ch)) == QUOTED && Literal(QUOTED, Spelled(ch)) == [ch]
    ensures Uncut(QUOTED, Spelled(ch), delim)
  {
    var escaping := Quote(true, true);
    assert Scan(escaping, [ch]) == QUOTED && Literal(escaping, [ch]) == [ch] && Uncut(escaping, [ch], delim);
    if !Ordinary(ch) {
      assert Spelled(ch)[0] == '\\' && Spelled(ch)[1..] == [ch];
    }
  }

  lemma {:induction false} BackslashedScan(value: string, delim: char)
    ensures Scan(QUOTED, Backslashed(value)) == QUOTED && Literal(QUOTED, Backslashed(value)) == value
    ensures Uncut(QUOTED, Backslashed(value), delim)
  {
    if value == "" {
    } else {
      BackslashedScan(value[1..], delim);
      SpelledScan(value[0], delim);
      var head, rest := Spelled(value[0]), Backslashed(value[1..]);
      ScanConcat(QUOTED, head, rest);
      LiteralConcat(QUOTED, head, rest);
      UncutConcat(QUOTED, head, rest, delim);
      assert [value[0]] + value[1..] == value;
    }
  }

  /** Any field can be spelled as one quoted run. */
  lemma QuotedRoundTrip(value: string, delim: char)
    ensures var text := "\"" + Backslashed(value) + "\"";
            && Scan(CLEAN, text) == CLEAN && Uncut(CLEAN, text, delim)
            && Literal(CLEAN, text) == value && Decode(text) == Ok(value)
  {
    var body := Backslashed(value);
    var text := "\"" + body + "\"";
    BackslashedScan(value, delim);
    ScanConcat(QUOTED, body, "\"");
    LiteralConcat(QUOTED, body, "\"");
    UncutConcat(QUOTED, body, "\"", delim);
    assert text[0] == '\"' && text[1..] == body + "\"";
    assert Scan(QUOTED, "\"") == CLEAN && Literal(QUOTED, "\"") == "" && Uncut(QUOTED, "\"", delim);
  }

  /** The canonical spelling decodes to the field, never reads as a delimiter, and is neither
      empty nor mistaken for a query's absence marker. */
  lemma EscapeRoundTrip(value: string, delim: char)
    requires Structural(delim)
    ensures Scan(CLEAN, Escape(value)) == CLEAN && Uncut(CLEAN, Escape(value), delim)
    ensures Literal(CLEAN, Escape(value)) == value && Decode(Escape(value)) == Ok(value)
    ensures Escape(value) != "" && Escape(value)[0] != '!'
  {
    if Plain(value) { PlainScan(value, delim); } else { QuotedRoundTrip(value, delim); }
  }

  lemma {:induction false} BackslashedGrows(value: string)
    ensures |Backslashed(value)| >= |value|
  {
    if value == "" {
    } else {
      BackslashedGrows(value[1..]);
    }
  }

  /** Exactly which fields are spelled as they are: the non-empty ones without any of the seven
      structural characters. */
  lemma BareIff(value: string)
    ensures Escape(value) == value <==>
            value != "" && forall i :: 0 <= i < |value| ==> value[i] !in ['/', '@', '&', '=', '!', '\"', '\\']
  {
    BackslashedGrows(value);
  }

  /** A backslash makes any character literal, inside a quoted run and outside: it neither cuts nor
      opens nor closes anything. */
  lemma BackslashHides(inQuote: bool, ch: char, delim: char)
    ensures var q := Quote(inQuote, false);
            Scan(q, ['\\', ch]) == q && Literal(q, ['\\', ch]) == [ch] && Uncut(q, ['\\', ch], delim)
  {
    var q, text := Quote(inQuote, false), ['\\', ch];
    assert text[1..] == [ch] && Advance(q, '\\') == Quote(inQuote, true);
    assert Scan(Quote(inQuote, true), [ch]) == q && Literal(Quote(inQuote, true), [ch]) == [ch];
    assert Uncut(Quote(inQuote, true), [ch], delim);
  }

  /** Inside a quoted run every other character but the quote is literal and cuts nothing; a quote
      opens and closes the run and stands for nothing. */
  lemma QuoteHides(ch: char, delim: char)
    requires ch != '\\'
    ensures ch != '\"' ==> Scan(QUOTED, [ch]) == QUOTED && Literal(QUOTED, [ch]) == [ch]
    ensures Uncut(QUOTED, [ch], delim)
    ensures Scan(CLEAN, "\"") == QUOTED && Scan(QUOTED, "\"") == CLEAN
        && Literal(CLEAN, "\"") == "" == Literal(QUOTED, "\"")
  {
  }

  /** Outside, a delimiter cuts, and any other character but the two quoting ones is literal. */
  lemma OutsideIsBare(ch: char, delim: char)
    requires ch != '\\' && ch != '\"'
    ensures Scan(CLEAN, [ch]) == CLEAN && Literal(CLEAN, [ch]) == [ch]
    ensures Uncut(CLEAN, [ch], delim) <==> ch != delim
  {
  }

  /** Which refusal a field draws: after an escape at the very end, or inside an open run. */
  lemma RefusalOfField(text: string, inQuote: bool)
    ensures Scan(CLEAN, text) == Quote(inQuote, true) ==> Decode(text) == Err(DanglingEscape)
    ensures Scan(CLEAN, text) == QUOTED ==> Decode(text) == Err(UnterminatedQuote)
    ensures Scan(CLEAN, text) == CLEAN ==> Decode(text) == Ok(Literal(CLEAN, text))
  {
  }
}
