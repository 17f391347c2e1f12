/**
 * The trace decoder's display of a parsed dictionary: one line per entry,
 * indented two spaces per level, a `key:` line followed by the nested
 * dictionary's own display for a nested group, and `  (empty)` for a
 * dictionary without entries.
 */
module TraceFormat {
  import opened Text
  import opened PyDict

  /** `"  " * n`. */
  function Indent(n: nat): (s: string)
    ensures |s| == 2 * n
    ensures forall i :: 0 <= i < |s| ==> s[i] == ' '
  {
    if n == 0 then "" else "  " + Indent(n - 1)
  }

  /** `str(value)` for a simple value. */
  function ValueText(v: Value): string
    requires !v.Nested?
  {
    if v.Int? then Decimal(v.n) else v.s
  }

  /** `format_attrs(attrs, indent)`. */
  function Format(d: Dict, indent: nat): string
    decreases d, 1
  {
    if |d| == 0 then "  (empty)" else Join(Lines(d, indent), "\n")
  }

  /** The list `lines` that `format_attrs` joins. */
  function Lines(d: Dict, indent: nat): (lines: seq<string>)
    ensures |lines| >= |d|
    decreases d, 0
  {
    if |d| == 0 then []
    else
      var prefix := Indent(indent + 1);
      var first := match d[0].value
        case Nested(inner) => [prefix + d[0].key + ":", Format(inner, indent + 1)]
        case _ => [prefix + d[0].key + ": " + ValueText(d[0].value)];
      first + Lines(d[1..], indent)
  }

  /** Every line of the display, nested groups spelled out line by line. */
  function Flat(d: Dict, indent: nat): (lines: seq<string>)
    ensures |lines| > 0
    decreases d, 1
  {
    if |d| == 0 then ["  (empty)"] else FlatEntries(d, indent)
  }

  function FlatEntries(d: Dict, indent: nat): (lines: seq<string>)
    ensures |lines| >= |d|
    decreases d, 0
  {
    if |d| == 0 then []
    else
      var prefix := Indent(indent + 1);
      var first := match d[0].value
        case Nested(inner) => [prefix + d[0].key + ":"] + Flat(inner, indent + 1)
        case _ => [prefix + d[0].key + ": " + ValueText(d[0].value)];
      first + FlatEntries(d[1..], indent)
  }

  /** The display is the flat lines joined by newlines. */
  lemma {:induction false} FormatFlat(d: Dict, indent: nat)
    ensures Format(d, indent) == Join(Flat(d, indent), "\n")
    decreases d, 1
  {
    if |d| > 0 {
      LinesFlat(d, indent);
    }
  }

  lemma {:induction false} LinesFlat(d: Dict, indent: nat)
    requires |d| > 0
    ensures Join(Lines(d, indent), "\n") == Join(FlatEntries(d, indent), "\n")
    decreases d, 0
  {
    var prefix := Indent(indent + 1);
    var rest := d[1..];
    if d[0].value.Nested? {
      var inner := d[0].value.d;
      var header := prefix + d[0].key + ":";
      FormatFlat(inner, indent + 1);
      var a := [header, Format(inner, indent + 1)];
      var b := [header] + Flat(inner, indent + 1);
      assert Join(a, "\n") == Join(b, "\n") by {
        assert a[1..] == [Format(inner, indent + 1)];
        JoinConcat([header], Flat(inner, indent + 1), "\n");
      }
      if |rest| > 0 {
        LinesFlat(rest, indent);
        JoinConcat(a, Lines(rest, indent), "\n");
        JoinConcat(b, FlatEntries(rest, indent), "\n");
      } else {
        assert Lines(d, indent) == a;
        assert FlatEntries(d, indent) == b;
      }
    } else {
      var line := [prefix + d[0].key + ": " + ValueText(d[0].value)];
      if |rest| > 0 {
        LinesFlat(rest, indent);
        JoinConcat(line, Lines(rest, indent), "\n");
        JoinConcat(line, FlatEntries(rest, indent), "\n");
      } else {
        assert Lines(d, indent) == line;
        assert FlatEntries(d, indent) == line;
      }
    }
  }

  /** No key and no text value, at any depth, holds a newline. */
  predicate SingleLine(d: Dict)
    decreases d
  {
    forall i :: 0 <= i < |d| ==>
      '\n' !in d[i].key &&
      (d[i].value.Str? ==> '\n' !in d[i].value.s) &&
      (d[i].value.Nested? ==> SingleLine(d[i].value.d))
  }

  lemma DecimalSingleLine(n: nat)
    ensures '\n' !in Decimal(n)
  {
  }

  lemma IndentSingleLine(n: nat)
    ensures '\n' !in Indent(n)
  {
  }

  /** When nothing holds a newline, no flat line does either. */
  lemma {:induction false} FlatSingleLine(d: Dict, indent: nat)
    requires SingleLine(d)
    ensures forall i :: 0 <= i < |Flat(d, indent)| ==> '\n' !in Flat(d, indent)[i]
    decreases d, 1
  {
    if |d| > 0 {
      FlatEntriesSingleLine(d, indent);
    }
  }

  lemma {:induction false} FlatEntriesSingleLine(d: Dict, indent: nat)
    requires SingleLine(d)
    ensures forall i :: 0 <= i < |FlatEntries(d, indent)| ==> '\n' !in FlatEntries(d, indent)[i]
    decreases d, 0
  {
    if |d| > 0 {
      var prefix := Indent(indent + 1);
      IndentSingleLine(indent + 1);
      var rest := d[1..];
      assert SingleLine(rest) by {
        forall i | 0 <= i < |rest|
          ensures '\n' !in rest[i].key
        {
          assert rest[i] == d[i + 1];
        }
        assert forall i :: 0 <= i < |rest| ==> rest[i] == d[i + 1];
      }
      FlatEntriesSingleLine(rest, indent);
      var first := match d[0].value
        case Nested(inner) => [prefix + d[0].key + ":"] + Flat(inner, indent + 1)
        case _ => [prefix + d[0].key + ": " + ValueText(d[0].value)];
      assert FlatEntries(d, indent) == first + FlatEntries(rest, indent);
      if d[0].value.Nested? {
        FlatSingleLine(d[0].value.d, indent + 1);
      } else if d[0].value.Int? {
        DecimalSingleLine(d[0].value.n);
      }
      forall i | 0 <= i < |first|
        ensures '\n' !in first[i]
      {
        if i == 0 {
          assert first[0] == prefix + d[0].key + (if d[0].value.Nested? then ":" else ": " + ValueText(d[0].value));
        } else {
          assert first[i] == Flat(d[0].value.d, indent + 1)[i - 1];
        }
      }
    }
  }

  /** Splitting the display at its newlines gives back the flat lines, when no key or text holds a newline. */
  lemma DisplayLines(d: Dict, indent: nat)
    requires SingleLine(d)
    ensures Split(Format(d, indent), '\n') == Flat(d, indent)
  {
    FormatFlat(d, indent);
    FlatSingleLine(d, indent);
    SplitJoin(Flat(d, indent), '\n');
  }
}
