/** The PostgreSQL COPY text format as this library writes and reads it:
    fields separated by a tab, a NULL field written as the two characters
    backslash and `N`, each line ended by a newline. Field text is not
    escaped in either direction. */
module CopyText {
  import opened Wrappers

  const TAB: char := '\t'
  const NEWLINE: char := '\n'
  const NULL_FIELD: string := "\\N"

  /** How one value is written: NULL as `\N`, text verbatim. */
  function EncodeField(v: Option<string>): (s: string)
    ensures v.None? ==> s == NULL_FIELD
    ensures v.Some? ==> s == v.value
  {
    match v
    case None => NULL_FIELD
    case Some(s) => s
  }

  /** How one field is read back: `\N` as NULL, anything else verbatim. */
  function DecodeField(s: string): (v: Option<string>)
    ensures v.None? <==> s == NULL_FIELD
    ensures v.Some? ==> v.value == s
  {
    if s == NULL_FIELD then None else Some(s)
  }

  /** A value the unescaped format carries faithfully: no tab, no newline,
      and not the NULL marker itself. */
  predicate Plain(v: Option<string>)
  {
    v.Some? ==> TAB !in v.value && NEWLINE !in v.value && v.value != NULL_FIELD
  }

  /** The fields joined by tabs. */
  function JoinTabs(fields: seq<string>): (r: string)
    requires |fields| > 0
  {
    if |fields| == 1 then fields[0] else fields[0] + [TAB] + JoinTabs(fields[1..])
  }

  function Encoded(values: seq<Option<string>>): (fields: seq<string>)
    ensures |fields| == |values|
    ensures forall i | 0 <= i < |values| :: fields[i] == EncodeField(values[i])
  {
    seq(|values|, i requires 0 <= i < |values| => EncodeField(values[i]))
  }

  /** The line written for one row. */
  function Line(values: seq<Option<string>>): (r: string)
    requires |values| > 0
  {
    JoinTabs(Encoded(values)) + [NEWLINE]
  }

  /** Every field followed by a tab: what the writer's buffer holds before
      its last character is overwritten. */
  function Terminated(values: seq<Option<string>>): (r: string)
  {
    if values == [] then []
    else Terminated(values[..|values| - 1]) + EncodeField(values[|values| - 1]) + [TAB]
  }

  /** Split on every tab; a string without tabs is one field. */
  function Split(s: string): (fields: seq<string>)
    ensures |fields| >= 1
  {
    if s == [] then [[]]
    else
      var rest := Split(s[1..]);
      if s[0] == TAB then [[]] + rest else [[s[0]] + rest[0]] + rest[1..]
  }

  /** Drop one trailing newline, if there is one. */
  function StripNewline(line: string): (s: string)
    ensures |s| <= |line|
  {
    if |line| > 0 && line[|line| - 1] == NEWLINE then line[..|line| - 1] else line
  }

  function Decoded(fields: seq<string>): (values: seq<Option<string>>)
    ensures |values| == |fields|
    ensures forall i | 0 <= i < |fields| :: values[i] == DecodeField(fields[i])
  {
    seq(|fields|, i requires 0 <= i < |fields| => DecodeField(fields[i]))
  }

  /** The reader's parse of one raw line into column values. */
  function ParseLine(line: string): (values: seq<Option<string>>)
    ensures |values| >= 1
  {
    Decoded(Split(StripNewline(line)))
  }

  /** A text without tabs is a single field. */
  lemma {:induction false} SplitNoTab(a: string)
    requires TAB !in a
    ensures Split(a) == [a]
  {
    if a != [] {
      SplitNoTab(a[1..]);
      assert [a[0]] + a[1..] == a;
    }
  }

  /** A tab ends the first field exactly where it stands. */
  lemma {:induction false} SplitAtTab(a: string, b: string)
    requires TAB !in a
    ensures Split(a + [TAB] + b) == [a] + Split(b)
  {
    if a == [] {
      assert a + [TAB] + b == [TAB] + b;
    } else {
      assert (a + [TAB] + b)[0] == a[0] && (a + [TAB] + b)[1..] == a[1..] + [TAB] + b;
      SplitAtTab(a[1..], b);
      assert [a[0]] + a[1..] == a;
    }
  }

  /** Splitting undoes joining when no field holds a tab. */
  lemma {:induction false} SplitJoin(fields: seq<string>)
    requires |fields| > 0
    requires forall i | 0 <= i < |fields| :: TAB !in fields[i]
    ensures Split(JoinTabs(fields)) == fields
  {
    if |fields| == 1 {
      SplitNoTab(fields[0]);
    } else {
      SplitJoin(fields[1..]);
      SplitAtTab(fields[0], JoinTabs(fields[1..]));
    }
  }

  /** The writer's tab-terminated buffer, with its last tab turned into a
      newline, is the tab-joined line. */
  lemma TerminatedIsLine(values: seq<Option<string>>)
    requires |values| > 0
    ensures |Terminated(values)| > 0
    ensures Terminated(values)[..|Terminated(values)| - 1] + [NEWLINE] == Line(values)
    ensures Terminated(values)[|Terminated(values)| - 1 := NEWLINE] == Line(values)
  {
    var t := Terminated(values);
    TerminatedJoin(values);
    assert t[|t| - 1 := NEWLINE] == t[..|t| - 1] + [NEWLINE];
  }

  /** Without its last tab, the tab-terminated buffer is the tab-joined
      fields. */
  lemma {:induction false} TerminatedJoin(values: seq<Option<string>>)
    requires |values| > 0
    ensures |Terminated(values)| > 0
    ensures Terminated(values)[..|Terminated(values)| - 1] == JoinTabs(Encoded(values))
    decreases |values|
  {
    var t := Terminated(values);
    var n := |values|;
    if n == 1 {
      assert values[..0] == [];
      assert t == EncodeField(values[0]) + [TAB];
      assert t[..|t| - 1] == EncodeField(values[0]);
      assert Encoded(values) == [EncodeField(values[0])];
    } else {
      var init := values[..n - 1];
      TerminatedJoin(init);
      var ti := Terminated(init);
      assert ti == ti[..|ti| - 1] + [TAB];
      assert t == ti + EncodeField(values[n - 1]) + [TAB];
      assert t[..|t| - 1] == ti[..|ti| - 1] + [TAB] + EncodeField(values[n - 1]);
      JoinSnoc(Encoded(init), EncodeField(values[n - 1]));
      assert Encoded(init) + [EncodeField(values[n - 1])] == Encoded(values);
    }
  }

  /** Joining one more field appends a tab and that field. */
  lemma {:induction false} JoinSnoc(fields: seq<string>, f: string)
    requires |fields| > 0
    ensures JoinTabs(fields + [f]) == JoinTabs(fields) + [TAB] + f
    decreases |fields|
  {
    if |fields| == 1 {
      assert (fields + [f])[1..] == [f];
    } else {
      assert (fields + [f])[1..] == fields[1..] + [f];
      JoinSnoc(fields[1..], f);
    }
  }

  /** Round trip: reading back a written line recovers the values, provided
      each is plain (the format does no escaping). */
  lemma RoundTrip(values: seq<Option<string>>)
    requires |values| > 0
    requires forall i | 0 <= i < |values| :: Plain(values[i])
    ensures ParseLine(Line(values)) == values
  {
    var fields := Encoded(values);
    assert StripNewline(Line(values)) == JoinTabs(fields);
    SplitJoin(fields);
  }

  /** A written line holds exactly one newline, at its end, when the values
      are plain. */
  lemma {:induction false} LineShape(values: seq<Option<string>>)
    requires |values| > 0
    requires forall i | 0 <= i < |values| :: Plain(values[i])
    ensures Line(values)[|Line(values)| - 1] == NEWLINE
    ensures NEWLINE !in Line(values)[..|Line(values)| - 1]
  {
    var fields := Encoded(values);
    NoNewlineJoin(fields);
    assert Line(values)[..|Line(values)| - 1] == JoinTabs(fields);
  }

  lemma {:induction false} NoNewlineJoin(fields: seq<string>)
    requires |fields| > 0
    requires forall i | 0 <= i < |fields| :: NEWLINE !in fields[i]
    ensures NEWLINE !in JoinTabs(fields)
  {
    if |fields| > 1 {
      NoNewlineJoin(fields[1..]);
    }
  }

  /** The unescaped format is lossy outside plain values: a text equal to
      `\N` is read back as NULL, and a text holding a tab comes back as two
      fields. */
  lemma EscapingGap()
    ensures ParseLine(Line([Some(NULL_FIELD)])) == [None]
    ensures |ParseLine(Line([Some("a\tb")]))| == 2
  {
    SplitNoTab(NULL_FIELD);
    assert Line([Some("a\tb")]) == "a" + [TAB] + "b" + [NEWLINE];
    assert StripNewline(Line([Some("a\tb")])) == "a" + [TAB] + "b";
    SplitAtTab("a", "b");
    SplitNoTab("b");
  }
}
